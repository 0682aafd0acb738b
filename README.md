# bitranger core, modelled in Dafny

bitranger keeps a repository's "context tree" in `.bitranger/`. The tree is
organised as domain directories. Each domain holds topic directories, and
each topic holds `*.md` memory files. A `config.json` at the root holds the
project's configuration. A language model curates the tree and queries it
through a fixed set of tool requests. The `gen-rules` command flattens the
tree into rule files for coding agents.

This project models that core and proves what its operations mean. The
modules follow the program's structure:

- `Wrappers`: `Option`, `Result` and `Outcome`.
- `Strings`: lexicographic order and the sorted listing of a set; joining,
  splitting, containment and order of slices; `[...new Set(xs)]`; and a
  generic concatenation of one text part per element.
- `TreeState` (`src/contextTree/ContextTreeStore.ts`): the tree as a value
  `Disk(dirs, files, config)`, over paths of fixed depth (root, domain,
  topic, entry). It gives the meaning of each store operation as a function
  on that value: listings, reads, writes, deletes, configuration and
  initialisation. Failures are returned as `FsError` values with the code
  and system call that Node.js reports. `fs.readFile` of a directory opens
  it and fails in `read`, so that error carries no path. Every other error
  carries the path, given relative to the repository root, as
  `.bitranger/<domain>/...` or the requested file path.
- `TreeWalk`: the walks that clear, count and render the tree (`clearTopic`,
  `clearDomain`, `clearAll`, `getStats`, `getTreeStructure`), with the
  lemmas about their effect.
- `Store`: the class `ContextTreeStore`, with the tree and the repository's
  other files as fields. Each method changes the fields exactly as its
  `TreeState`/`TreeWalk` function says. The walks are loops whose
  invariants tie the partial result to that function.
- `Relations` (`src/contextTree/RelationsParser.ts`): the two regular
  expressions written out as explicit scanners. These are the
  `## Relations` section pattern (flags `i`, `m`, `s`; greedy `\s*`, `$`,
  lazy body, lookahead) and the `@domain/topic[/subtopic]` pattern (global
  scan and anchored match). The module also models `validateRelation`,
  `getValidRelations`, `formatRelationsSection` and `addRelations`.
- `Tools` (`src/agentRunner/ToolExecutor.ts`): the tool requests as a
  datatype, and `ExecuteSpec`, which gives the envelope and new tree of each
  request. `ToolExecutor.Execute` performs it on a store.
- `Agent` (`src/agentRunner/AgentRunner.ts`): the bounded loop of `curate`
  and `query`.
  - The language model is an oracle: a total function from the arguments of
    one call, including the message history so far, to a reply. That reply
    either throws or requests a tool.
  - `Run` is the loop as a value. `AgentRunner.Curate` and
    `AgentRunner.Query` perform it on a store.
- `Rules` (`src/commands/genRules.ts`): the rules document as a function of
  the tree, the method that builds it with one loop per level, and the
  `gen-rules` action over the repository's files.

Where the source's own comments state an intent the code does not carry
out, the model follows the code:

- **Relations round trip.** The section pattern's `\z` has no special meaning
  in a JavaScript regular expression without the `u` flag. With the `i` flag
  it matches a literal `z` or `Z`. So the lazy body stops only at a line
  starting with `##` or at a letter z, never at the end of the text.
  - A relations section written by `formatRelationsSection` at the end of a
    document is therefore not found again (`FormattedAtEndLost`).
  - Adding one or more well-formed relations that contain no `z` or `Z` to
    an empty document, then extracting, gives nothing back
    (`AddThenExtractLost`). The doc comment of `addRelations`
    (`src/contextTree/RelationsParser.ts:124-125`) says that new relations
    are merged into an existing section; after such a round trip there is
    no section left to merge into.
  - The round trip holds when a `##` heading follows the section
    (`ExtractFormatted`).
- **Subtopics.** The comments at `src/contextTree/RelationsParser.ts:10`
  and `:60` speak of `@domain/topic/subtopic` targets, but
  `validateRelation` passes the parsed subtopic to
  `readMemory`, which takes no such parameter. The check therefore looks
  only at `<domain>/<topic>/context.md` (`SubtopicIgnored`).
- **Written-file names.** The `writtenFiles` entries of a curation always say
  `context.md`, whatever file name the write request carried
  (`WrittenOfWrites`).

## Model

| member | source | states |
|---|---|---|
| TreeState.DefaultConfig | src/contextTree/ContextTreeStore.ts:34-53 | The configuration `initialize` writes: version 1.0.0; the given project name, or the repository's base name when it is absent or empty; git tracking only when asked for; both agents enabled with their rules files; auto-organise on; the requested default domains, or Architecture, API and Frontend |
| TreeState.MergeConfig | src/contextTree/ContextTreeStore.ts:78-82 | Every top-level field given in the update replaces the stored one; every field not given keeps its value |
| TreeState.ListDomainsSpec | src/contextTree/ContextTreeStore.ts:87-97 | The domain listing is strictly sorted and holds exactly the directories under an existing root, except `node_modules` |
| TreeState.ListTopicsSpec | src/contextTree/ContextTreeStore.ts:102-113 | The topic listing is strictly sorted and holds exactly the sub-directories of an existing domain |
| TreeState.ListMemoriesSpec | src/contextTree/ContextTreeStore.ts:118-129 | The memory listing is strictly sorted and holds exactly the files ending in `.md` of an existing topic |
| TreeState.MemoryFileName | src/contextTree/ContextTreeStore.ts:136-140 | A memory file name always ends in `.md`; a name that already does is kept, and any other gets `.md` appended |
| TreeState.ReadTreeFile | src/contextTree/ContextTreeStore.ts:134-142 | A read succeeds exactly when the file exists and yields its text; at a directory it fails with `EISDIR: illegal operation on a directory, read`, without a path; otherwise it fails with the `ENOTDIR` or `ENOENT` open error for that path |
| TreeState.WriteMemory | src/contextTree/ContextTreeStore.ts:147-158 | A write succeeds exactly when no file blocks the directories to be made and the target is no directory. Success makes the directories and stores the text; failure leaves the tree as it was; validity is kept |
| TreeState.DeleteMemory | src/contextTree/ContextTreeStore.ts:171-174 | A delete succeeds exactly when the file exists and removes only that file; otherwise nothing changes |
| TreeState.ReadProjectFile | src/contextTree/ContextTreeStore.ts:163-166 | Reading a repository-relative file succeeds exactly when it exists and yields its text |
| TreeState.ReadConfig | src/contextTree/ContextTreeStore.ts:70-73 | Reading the configuration succeeds exactly when one is stored and yields it; a directory at `config.json` gives the pathless `read` error, anything else the open error for `config.json` |
| TreeState.UpdateConfig | src/contextTree/ContextTreeStore.ts:78-82 | The update succeeds exactly when a configuration exists; it stores the merge of old and new and changes nothing else |
| TreeState.MakeDomainDirs | src/contextTree/ContextTreeStore.ts:59-61 | Making the default domains succeeds exactly when no file is in the way. The new tree's directories are the old ones plus those domains; files and configuration are untouched |
| TreeState.InitializeSpec | src/contextTree/ContextTreeStore.ts:34-65 | Initialisation succeeds exactly when nothing blocks the root, the domains or `config.json`. It then stores the default configuration and adds the root and the domain directories; files are untouched and validity is kept |
| TreeState.MemoryNameNormalised | src/contextTree/ContextTreeStore.ts:139 | Naming a memory with or without `.md` reaches the same file |
| TreeState.WriteThenRead | src/contextTree/ContextTreeStore.ts:134-158 | After a successful write, reading the same memory yields the written text |
| TreeState.WriteListed | src/contextTree/ContextTreeStore.ts:147-158 | After a successful write, the topic is listed, the domain is listed unless hidden, and the memory is listed. The configuration and every other file are unchanged |
| TreeWalk.AllMemoriesOfValid | src/contextTree/ContextTreeStore.ts:202-209 | The memories of the tree are exactly its `.md` files at depth three outside `node_modules` |
| TreeWalk.TotalFilesCounts | src/contextTree/ContextTreeStore.ts:227-245 | Counting memories domain by domain and topic by topic gives the number of all memories |
| TreeWalk.ClearTopicEffect | src/contextTree/ContextTreeStore.ts:179-185 | Clearing a topic removes exactly its listed memories and reports how many. Every other topic's listing, every domain's topic listing and the domain listing are unchanged |
| TreeWalk.ClearDomainEffect | src/contextTree/ContextTreeStore.ts:190-197 | Clearing a domain removes exactly the memories of its topics and reports how many. Its topics stay listed, now empty, and other domains are unchanged |
| TreeWalk.ClearAllEffect | src/contextTree/ContextTreeStore.ts:202-209 | Clearing all removes exactly all memories and reports how many; no visible topic lists a memory afterwards |
| TreeWalk.DeleteTwice | src/contextTree/ContextTreeStore.ts:190-209 | Deleting one set of files and then another is deleting their union, which is how clearing a domain or all topics adds up |
| TreeWalk.TreeStatsSpec | src/contextTree/ContextTreeStore.ts:214-254 | The statistics count the listed domains. They give one entry per domain, in listing order, with its number of listed topics and of memories in them. The topic total is the sum of the entries' topics. The file total is the sum of the entries' files, which is the number of all memories. The size total is the summed size of all memories |
| TreeWalk.StatsAfterClearAll | src/contextTree/ContextTreeStore.ts:202-254 | After clearing all, the statistics show no memory files and the same number of domains |
| TreeWalk.TreeLineCount | src/contextTree/ContextTreeStore.ts:259-290 | The tree drawing has one line for the root and one per domain, topic and memory |
| TreeWalk.DomainBlockInTree | src/contextTree/ContextTreeStore.ts:263-287 | Each listed domain's block of lines appears in the drawing |
| TreeWalk.TopicBlockInTree | src/contextTree/ContextTreeStore.ts:270-286 | Each listed topic's block of lines appears in the drawing |
| TreeWalk.TreeShowsDomain | src/contextTree/ContextTreeStore.ts:263-267 | Every listed domain appears as a line of the drawing with the branch that marks whether it is last |
| TreeWalk.TreeShowsTopic | src/contextTree/ContextTreeStore.ts:270-275 | Every listed topic appears as a line with its domain's and its own branches |
| TreeWalk.TreeShowsMemory | src/contextTree/ContextTreeStore.ts:278-284 | Every listed memory appears as a line with the branches of its domain, topic and itself |
| TreeWalk.TreeHeaderFirst | src/contextTree/ContextTreeStore.ts:259-263 | The first line is `context_tree/`, and every domain's block comes after it |
| TreeWalk.TreeDomainsInOrder | src/contextTree/ContextTreeStore.ts:263-267 | Each domain's block opens with its line, and the lesser of two listed domains' blocks comes first |
| TreeWalk.TreeTopicUnderDomain | src/contextTree/ContextTreeStore.ts:267-275 | Each topic's block opens with its line and comes after its domain's line |
| TreeWalk.TreeTopicsInOrder | src/contextTree/ContextTreeStore.ts:269-276 | Within a domain, the lesser of two listed topics' blocks comes first |
| TreeWalk.TreeMemoriesInOrder | src/contextTree/ContextTreeStore.ts:275-285 | Memory lines come after their topic's line, and the lesser of two listed memories' lines comes first |
| Store.ContextTreeStore.constructor | src/contextTree/ContextTreeStore.ts:9 | A new store sees the given tree and repository files |
| Store.ContextTreeStore.IsInitialized | src/contextTree/ContextTreeStore.ts:22-29 | True exactly when something (the configuration file or a directory of that name) exists at `config.json` |
| Store.ContextTreeStore.Initialize | src/contextTree/ContextTreeStore.ts:34-65 | Outcome and new tree as `TreeState.Initialize` gives them; repository files unchanged |
| Store.ContextTreeStore.MakeDomainDirectories | src/contextTree/ContextTreeStore.ts:59-61 | The loop over default domains ends in the tree `MakeDomainDirs` describes |
| Store.ContextTreeStore.ReadConfig | src/contextTree/ContextTreeStore.ts:70-73 | Yields the stored configuration, or `ReadError` of `config.json`: the pathless `read` error at a directory, otherwise the open error |
| Store.ContextTreeStore.UpdateConfig | src/contextTree/ContextTreeStore.ts:78-82 | Outcome and new tree as `TreeState.UpdateConfig` gives them |
| Store.ContextTreeStore.ListDomains | src/contextTree/ContextTreeStore.ts:87-97 | Yields the sorted domain listing of the current tree |
| Store.ContextTreeStore.ListTopics | src/contextTree/ContextTreeStore.ts:102-113 | Yields the sorted topic listing |
| Store.ContextTreeStore.ListMemories | src/contextTree/ContextTreeStore.ts:118-129 | Yields the sorted memory listing |
| Store.ContextTreeStore.ReadMemory | src/contextTree/ContextTreeStore.ts:134-142 | Yields the memory's text, or `ReadError` of its path: the pathless `read` error at a directory, otherwise the `ENOTDIR` or `ENOENT` open error |
| Store.ContextTreeStore.WriteMemory | src/contextTree/ContextTreeStore.ts:147-158 | Outcome and new tree as `TreeState.WriteMemory` gives them |
| Store.ContextTreeStore.ReadFile | src/contextTree/ContextTreeStore.ts:163-166 | Yields the repository file's text or the open error |
| Store.ContextTreeStore.DeleteMemory | src/contextTree/ContextTreeStore.ts:171-174 | Outcome and new tree as `TreeState.DeleteMemory` gives them |
| Store.ContextTreeStore.ClearTopic | src/contextTree/ContextTreeStore.ts:179-185 | The deletion loop ends in the tree and count `TreeWalk.ClearTopic` gives |
| Store.ContextTreeStore.ClearDomain | src/contextTree/ContextTreeStore.ts:190-197 | The nested loops end in the tree and count `TreeWalk.ClearDomain` gives |
| Store.ContextTreeStore.ClearAll | src/contextTree/ContextTreeStore.ts:202-209 | The loop over domains ends in the tree and count `TreeWalk.ClearAll` gives |
| Store.ContextTreeStore.GetStats | src/contextTree/ContextTreeStore.ts:214-254 | The counting loops yield `TreeStats` of the current tree |
| Store.ContextTreeStore.DomainStats | src/contextTree/ContextTreeStore.ts:227-245 | One domain's loop yields its entry and the sizes of its memories |
| Store.ContextTreeStore.TopicsStats | src/contextTree/ContextTreeStore.ts:231-240 | The topic loop yields the memory count and size of the given topics |
| Store.ContextTreeStore.MemoriesSize | src/contextTree/ContextTreeStore.ts:235-239 | The memory loop yields the summed sizes of a topic's listed memories |
| Store.ContextTreeStore.GetTreeStructure | src/contextTree/ContextTreeStore.ts:259-290 | The drawing loops yield the lines `TreeLines` gives, joined by line breaks |
| Store.ContextTreeStore.BlocksLines | src/contextTree/ContextTreeStore.ts:263-287 | The domain loop yields the domains' blocks in order |
| Store.ContextTreeStore.DomainLines | src/contextTree/ContextTreeStore.ts:264-286 | One domain yields its line followed by its topics' blocks |
| Store.ContextTreeStore.TopicsLines | src/contextTree/ContextTreeStore.ts:270-286 | The topic loop yields the topics' blocks in order |
| Store.ContextTreeStore.TopicLines | src/contextTree/ContextTreeStore.ts:271-285 | One topic yields its line followed by its memories' lines |
| Relations.ResolveIff | src/contextTree/RelationsParser.ts:44-57 | A text resolves to a path exactly when the path is well formed and the text is its `@domain/topic[/subtopic]` spelling |
| Relations.ResolveText | src/contextTree/RelationsParser.ts:44-57 | Spelling a well-formed path and resolving it gives the path back |
| Relations.ResolvedText | src/contextTree/RelationsParser.ts:44-57 | A resolved text is the spelling of its resolved path |
| Relations.SpansIff | src/contextTree/RelationsParser.ts:28-33 | The global scan's match spans are the unique leftmost, non-overlapping sequence of matches |
| Relations.TokensOfSpans | src/contextTree/RelationsParser.ts:28-33 | Each pushed token is the section text of its match span |
| Relations.TokensResolve | src/contextTree/RelationsParser.ts:28-33 | Every token the global scan finds resolves as a relation path |
| Relations.FindSectionLeftmost | src/contextTree/RelationsParser.ts:20 | No section match starts before the one found, and none exists when none is found |
| Relations.ExtractRelations | src/contextTree/RelationsParser.ts:16-36 | The method's scan loop yields the tokens of the first section's body, or none |
| Relations.ExtractedResolve | src/contextTree/RelationsParser.ts:16-57 | Every extracted relation resolves |
| Relations.NoSectionNoRelations | src/contextTree/RelationsParser.ts:20-23 | When no header line is followed by a stop, no section is found and nothing is extracted |
| Relations.ValidateRelation | src/contextTree/RelationsParser.ts:66-79 | The method answers whether the relation is valid in the current tree |
| Relations.ValidRelationIff | src/contextTree/RelationsParser.ts:66-79 | A relation is valid exactly when it resolves and its domain and topic hold a `context.md` file |
| Relations.SubtopicIgnored | src/contextTree/RelationsParser.ts:74 | Two relations that differ only in their subtopic are both valid or both invalid |
| Relations.ValidRelationsInOrder | src/contextTree/RelationsParser.ts:96-104 | The valid relations come in the order of the extracted ones |
| Relations.ValidRelationsKept | src/contextTree/RelationsParser.ts:96-104 | A relation is kept exactly when it was extracted and is valid |
| Relations.ValidRelationsParts | src/contextTree/RelationsParser.ts:97-102 | Each kept entry is valid and carries the parts its relation resolves to |
| Relations.GetValidRelations | src/contextTree/RelationsParser.ts:89-107 | The method's loop yields the valid relations of the extracted ones |
| Relations.FormatParts | src/contextTree/RelationsParser.ts:115-121 | A non-empty section is the header, one line per relation and a final line break |
| Relations.TrimSpec | src/contextTree/RelationsParser.ts:136 | Trimming removes exactly the leading and trailing white space |
| Relations.MergedRelationsSpec | src/contextTree/RelationsParser.ts:132-133 | The merged list has no duplicates and holds exactly the existing and new relations. The existing ones come first, each at its first occurrence, then the new ones not already there |
| Relations.AddRelationsNoSection | src/contextTree/RelationsParser.ts:131-140 | Without an existing section, the result is the trimmed text followed by the section of the distinct new relations |
| Relations.ExtractFormatted | src/contextTree/RelationsParser.ts:16-36 | A formatted section followed by a `##` heading is extracted back as the same relations |
| Relations.FormattedAtEndLost | src/contextTree/RelationsParser.ts:20 | A formatted section at the very end of a text is not found, because `\z` does not match the end |
| Relations.AddThenExtractLost | src/contextTree/RelationsParser.ts:131-140 | Adding relations to an empty document and extracting them gives nothing back |
| Tools.ExecuteKeepsName | src/agentRunner/ToolExecutor.ts:30-117 | Every envelope carries the request's tag; only a write can change the tree; validity is kept |
| Tools.ListingLines | src/agentRunner/ToolExecutor.ts:39-59 | A listing output splits into its title line and one `- name` line per name |
| Tools.ListingShows | src/agentRunner/ToolExecutor.ts:39-59 | A listing's first line is its title, and a name is on a bullet line exactly when it is listed |
| Tools.ListDomainsShows | src/agentRunner/ToolExecutor.ts:34-41 | The output's first line is the title, and a domain is on a bullet line exactly when it is listed |
| Tools.ListTopicsShows | src/agentRunner/ToolExecutor.ts:43-51 | The output's first line is `Topics in <domain> domain:`, and a topic is on a bullet line exactly when it is listed |
| Tools.ListMemoriesShows | src/agentRunner/ToolExecutor.ts:53-61 | The output's first line is `Memories in <domain>/<topic>:`, and a memory is on a bullet line exactly when it is listed |
| Tools.ReadMemoryResult | src/agentRunner/ToolExecutor.ts:63-71 | A read request yields the memory's text; at a directory, the envelope `Error: EISDIR: illegal operation on a directory, read`; otherwise an error envelope with the `ENOTDIR` or `ENOENT` open error for the memory's path |
| Tools.ReadFileResult | src/agentRunner/ToolExecutor.ts:73-81 | A file request yields the file's text with the path echoed, or an error envelope |
| Tools.WriteMemoryResult | src/agentRunner/ToolExecutor.ts:83-96 | A successful write reports created or updated with the path, echoes the request without its content, and makes the memory readable with the new text. A failed one yields an error envelope and leaves the tree as it was |
| Tools.DoneAndUnknown | src/agentRunner/ToolExecutor.ts:98-108 | `Done` gives its fixed envelope; an unknown tag gives `Unknown tool` as an error envelope; neither touches the tree |
| Tools.ToolExecutor.constructor | src/agentRunner/ToolExecutor.ts:17 | The executor works on the given store |
| Tools.ToolExecutor.Execute | src/agentRunner/ToolExecutor.ts:19-118 | The method's result and the store's new tree are those `ExecuteSpec` gives; repository files unchanged |
| Agent.Hint | src/agentRunner/AgentRunner.ts:119-126 | An absent or empty hint is passed on as absent, and any other is passed on as it is |
| Agent.FormatParse | src/agentRunner/AgentRunner.ts:93-95 | The text appended to the history determines the envelope it was made from |
| Agent.RunEnds | src/agentRunner/AgentRunner.ts:116-182 | The loop ends on `Done`, on a fault, or after the last allowed call, and each end is the one the oracle's replies force |
| Agent.RunAsked | src/agentRunner/AgentRunner.ts:116-159 | Each executed request is what the oracle replied to the history before it, and none is `Done` |
| Agent.RunRecorded | src/agentRunner/AgentRunner.ts:152-162 | Each request adds one history entry, the formatted text of its own result, which carries its tag |
| Agent.RunKept | src/agentRunner/AgentRunner.ts:152 | Without a write request the tree is unchanged |
| Agent.RunFromStart | src/agentRunner/AgentRunner.ts:108-182 | A run from an empty history satisfies all of the above |
| Agent.WrittenOfWrites | src/agentRunner/AgentRunner.ts:165-173 | One written-file entry per write request, in order, with its domain, topic and action and always the name `context.md` |
| Agent.CurateOutcomes | src/agentRunner/AgentRunner.ts:100-194 | A curation makes at most twenty calls. It succeeds exactly when it ends on `Done`, and it reports those calls, the iteration count and the error its end implies |
| Agent.CurateCalls | src/agentRunner/AgentRunner.ts:116-159 | Each call passes the request, the hints, the drawn tree and the history so far; each history entry is a formatted result |
| Agent.QueryOutcomes | src/agentRunner/AgentRunner.ts:199-279 | A query's results and summary come from its `Done`, empty when absent; a failed query has none; iterations and errors are as for curation |
| Agent.QueryReadOnly | src/agentRunner/AgentRunner.ts:199-279 | A query whose oracle never requests a write leaves the tree unchanged |
| Agent.AgentRunner.constructor | src/agentRunner/AgentRunner.ts:36-42 | The runner and its executor share the given store |
| Agent.AgentRunner.Curate | src/agentRunner/AgentRunner.ts:100-194 | The method's loop yields the result and the tree of the curation's trace |
| Agent.AgentRunner.Query | src/agentRunner/AgentRunner.ts:199-279 | The method's loop yields the result and the tree of the query's trace |
| Rules.ListedReadable | src/commands/genRules.ts:27-30 | Every listed memory can be read, and its block in the document is its text and a blank line |
| Rules.RulesHeader | src/commands/genRules.ts:10-11 | The document opens with the title and the project's name |
| Rules.SkipPolicy | src/commands/genRules.ts:16-25 | A domain without topics and a topic without memories contribute nothing; any other section opens with its heading |
| Rules.MemoryIncluded | src/commands/genRules.ts:13-32 | The text of every listed memory, and its topic's heading, appear in the document |
| Rules.TopicInDomain | src/commands/genRules.ts:20-31 | Whatever a topic's section holds, its domain's section holds |
| Rules.TopicInDocument | src/commands/genRules.ts:13-32 | Whatever a listed topic's section holds, the document holds |
| Rules.DomainsInOrder | src/commands/genRules.ts:13 | Domain sections appear in listing order |
| Rules.TopicsInOrder | src/commands/genRules.ts:20 | Topic sections appear in listing order within a domain |
| Rules.MemoriesInOrder | src/commands/genRules.ts:27 | Memory blocks appear in listing order within a topic |
| Rules.NoTopicsNoRules | src/commands/genRules.ts:13-34 | A tree without topics gives only the header |
| Rules.FreshTreeRules | src/commands/genRules.ts:6-35 | A freshly initialised tree without topics gives the header with the default project name |
| Rules.AgentsOf | src/commands/genRules.ts:70 | `both` stands for Cursor then Claude Code; any other name stands for itself |
| Rules.RulesFile | src/commands/genRules.ts:73-81 | Only `cursor` and `claude-code` have a rules file, each the one configured for that agent |
| Rules.Merged | src/commands/genRules.ts:83-93 | Merging with an existing file puts its text, a separator and the new rules; otherwise the new rules alone |
| Rules.GenRulesErrors | src/commands/genRules.ts:49-81 | An uninitialised tree, an unreadable configuration and an unknown agent stop the command without writing; a directory at `config.json` stops it with `EISDIR: illegal operation on a directory, read` |
| Rules.GenRulesBoth | src/commands/genRules.ts:70-97 | `both` writes each agent's rules file, merged where asked, and leaves every other file unchanged |
| Rules.GenRulesOne | src/commands/genRules.ts:64-97 | A custom output gets the bare document; otherwise the agent's rules file gets it, merged where asked |
| Rules.GenerateRulesContent | src/commands/genRules.ts:6-35 | The loops build exactly the document `GenerateRules` gives for the current tree |
| Rules.DomainContent | src/commands/genRules.ts:14-31 | One domain's iteration builds its section |
| Rules.TopicContent | src/commands/genRules.ts:21-30 | One topic's iteration builds its section |
| Rules.MemoriesContent | src/commands/genRules.ts:27-30 | The memory loop builds the blocks of the listed memories in order |
| Rules.GenRules | src/commands/genRules.ts:45-112 | The action's outcome and written files are those `GenRulesSpec` gives; the tree is unchanged |

Definitions that carry no contract of their own, and the rows that state what they mean:

- `TreeState.ListDomains`, `ListTopics`, `ListMemories`: `ListDomainsSpec`, `ListTopicsSpec`, `ListMemoriesSpec`.
- `TreeState.ReadMemory`: `ReadTreeFile`, `MemoryNameNormalised`, `WriteThenRead`.
- `TreeState.Initialize`: `InitializeSpec`. `TreeState.IsInitialized`: `Store.ContextTreeStore.IsInitialized`.
- `TreeWalk.ClearTopic`, `ClearDomain`, `ClearAll`: `ClearTopicEffect`, `ClearDomainEffect`, `ClearAllEffect`.
- `TreeWalk.TreeStats`: `TreeStatsSpec`, `StatsAfterClearAll`.
- `TreeWalk.TreeLines`: `TreeLineCount`, `DomainBlockInTree`, `TopicBlockInTree`, `TreeShowsDomain`, `TreeShowsTopic`, `TreeShowsMemory`, `TreeHeaderFirst`, `TreeDomainsInOrder`, `TreeTopicUnderDomain`, `TreeTopicsInOrder`, `TreeMemoriesInOrder`.
- `Relations.ResolveRelationPath`: `ResolveIff`, `ResolveText`, `ResolvedText`.
- `Relations.TokenAt`: `SpansIff`, `TokensOfSpans`, `TokensResolve`.
- `Relations.SectionAt`, `FindSection`, `Extracted`: `FindSectionLeftmost`, `ExtractRelations`, `ExtractedResolve`, `NoSectionNoRelations`, `ExtractFormatted`, `FormattedAtEndLost`.
- `Relations.FormatRelationsSection`: `FormatParts`.
- `Relations.AddRelations`, `MergedRelations`, `WithoutSection`: `MergedRelationsSpec`, `AddRelationsNoSection`, `AddThenExtractLost`.
- `Relations.IsValidRelation`: `ValidRelationIff`, `SubtopicIgnored`. `Relations.ValidRelationsOf`: `ValidRelationsInOrder`, `ValidRelationsKept`, `ValidRelationsParts`.
- `Tools.ExecuteSpec`: `ExecuteKeepsName`, `ListingLines`, `ListingShows`, `ListDomainsShows`, `ListTopicsShows`, `ListMemoriesShows`, `ReadMemoryResult`, `ReadFileResult`, `WriteMemoryResult`, `DoneAndUnknown`.
- `Agent.FormatToolResult`: `FormatParse`. `Agent.Run`: `RunEnds`, `RunAsked`, `RunRecorded`, `RunKept`, `RunFromStart`, `WrittenOfWrites`.
- `Agent.CurateOf`: `CurateOutcomes`, `CurateCalls`. `Agent.QueryOf`: `QueryOutcomes`, `QueryReadOnly`.
- `Rules.RulesText`, `GenerateRules`: `RulesHeader`, `SkipPolicy`, `MemoryIncluded`, `TopicInDocument`, `DomainsInOrder`, `TopicsInOrder`, `MemoriesInOrder`, `NoTopicsNoRules`, `FreshTreeRules`.
- `Rules.WriteAgents`, `GenRulesSpec`: `GenRulesErrors`, `GenRulesBoth`, `GenRulesOne`.

`Agent.ParseToolResult` models nothing in the program. It exists only so that `FormatParse` can state that `formatToolResult` loses nothing.

## Left out

- Paths: entries below depth three (subtopic directories) and `path.join` normalisation of `..` or `/` inside names are not modelled. Names are taken as single path components.
- Array `sort()` compares UTF-16 code units. The model uses lexicographic order on Dafny characters, which agrees for text below U+10000.
- Sizes in `getStats`: one character stands for one byte. UTF-8 encoding is not modelled.
- JSON: `config.json` is held as the configuration record, not as text. `JSON.stringify` of requests is a fixed renderer for flat string records, without escaping. The entries of a query's `Done` results are kept as opaque text.
- The language model: the BAML client calls are an oracle function from call arguments to replies. The `Collector` usage records and the verbose logging are not modelled.
- File system: concurrency and other processes touching `.bitranger/` are not modelled. I/O failures other than the missing-file, not-a-directory and is-a-directory cases that follow from the tree's shape are not modelled either.
- Error paths: Node.js reports a failed call (other than a `read`) with the path joined to the repository root (`path.join(repoRoot, ...)`). Under the default `--path` that path is absolute. The model gives the path relative to the repository root, so the `Error: ...` text the language model sees lacks that prefix.
- `getTreeStructure` failures inside the agent loop are not modelled; the drawing is total on the tree value.
- Tools.ExecuteKeepsName: a request object whose tag is one of the seven but whose fields are missing is taken to be well formed. `Other` stands only for an unknown tag.
- Rules.GenRules: `process.exit(1)` is a `Fail` outcome carrying the message. Console output, the stats line and the `--path` option are not modelled. The custom output path and the agents' rules files are keys of one map of repository files.
- The CLI wiring (`src/cli.ts`, `init`, `curate`, `query`, `status`, `clear` commands) is not part of this model.
