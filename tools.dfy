/**
 * `ToolExecutor`: the bridge from the tool requests the language model
 * returns to calls on the context-tree store.
 *
 * A request is one of seven tagged shapes, or (at run time) an object whose
 * tag is none of them. Each request maps to at most one store call and to an
 * envelope `{toolName, input, output}`; every failure of the call is caught
 * and turned into an envelope whose output is `Error: ` and the message.
 * `ExecuteSpec` gives the meaning of one request on the tree as a value; the
 * method `ToolExecutor.Execute` performs it on a store.
 */
module Tools {
  import opened Wrappers
  import opened Strings
  import opened TreeState
  import Store

  /** `action` of a write request. */
  datatype WriteAction = Create | Update

  /** An entry of the `results` of a query's `Done`; its fields belong to the model's output schema and are kept as text. */
  datatype RetrievedContext = RetrievedContext(text: string)

  /** The requests the engine can return. `Other` stands for an object whose `toolName` is none of the seven tags. */
  datatype Tool =
    | ListDomainsTool
    | ListTopicsTool(domain: string)
    | ListMemoriesTool(domain: string, topic: string)
    | ReadMemoryTool(domain: string, topic: string, filename: string)
    | ReadFileTool(path: string)
    | WriteMemoryTool(action: WriteAction, domain: string, topic: string, filename: string, content: string)
    | DoneTool(results: Option<seq<RetrievedContext>>, summary: Option<string>)
    | Other(name: string)

  /** The envelope every request produces. */
  datatype ToolResult = ToolResult(toolName: string, input: string, output: string)

  /** `tool.toolName`. */
  function NameOf(tool: Tool): string
  {
    match tool
    case ListDomainsTool => "ListDomains"
    case ListTopicsTool(_) => "ListTopics"
    case ListMemoriesTool(_, _) => "ListMemories"
    case ReadMemoryTool(_, _, _) => "ReadMemory"
    case ReadFileTool(_) => "ReadFile"
    case WriteMemoryTool(_, _, _, _, _) => "WriteMemory"
    case DoneTool(_, _) => "Done"
    case Other(n) => n
  }

  function ActionText(a: WriteAction): string
  {
    match a
    case Create => "create"
    case Update => "update"
  }

  // ---------------------------------------------------------------------------
  // Echoes of the request: `JSON.stringify` of flat string records
  // ---------------------------------------------------------------------------

  function Quote(s: string): string
  {
    "\"" + s + "\""
  }

  /** `"key":"value"` for each field. */
  function Members(fields: seq<(string, string)>): (r: seq<string>)
    ensures |r| == |fields| && forall i :: 0 <= i < |fields| ==> r[i] == Quote(fields[i].0) + ":" + Quote(fields[i].1)
  {
    seq(|fields|, i requires 0 <= i < |fields| => Quote(fields[i].0) + ":" + Quote(fields[i].1))
  }

  /** A flat record of string fields, in order, with no escaping. */
  function Json(fields: seq<(string, string)>): string
  {
    "{" + Join(Members(fields), ",") + "}"
  }

  /** `JSON.stringify(tool)`: the whole request, tag first; the entries of `results` are left out. */
  function FullEcho(tool: Tool): string
  {
    var fields := match tool
      case ListDomainsTool => []
      case ListTopicsTool(d) => [("domain", d)]
      case ListMemoriesTool(d, t) => [("domain", d), ("topic", t)]
      case ReadMemoryTool(d, t, f) => [("domain", d), ("topic", t), ("filename", f)]
      case ReadFileTool(p) => [("path", p)]
      case WriteMemoryTool(a, d, t, f, c) => [("action", ActionText(a)), ("domain", d), ("topic", t), ("filename", f), ("content", c)]
      case DoneTool(_, summary) => if summary.Some? then [("summary", summary.value)] else []
      case Other(_) => [];
    Json([("toolName", NameOf(tool))] + fields)
  }

  // ---------------------------------------------------------------------------
  // Outputs
  // ---------------------------------------------------------------------------

  /** `- name` for each name. */
  function Bullets(names: seq<string>): (r: seq<string>)
    ensures |r| == |names| && forall i :: 0 <= i < |names| ==> r[i] == "- " + names[i]
  {
    seq(|names|, i requires 0 <= i < |names| => "- " + names[i])
  }

  /** A listing: a title line, then `- name` per name, joined by line breaks. */
  function Listing(title: string, names: seq<string>): string
  {
    title + "\n" + Join(Bullets(names), "\n")
  }

  /** The envelope of a caught failure. */
  function ErrorResult(tool: Tool, message: string): ToolResult
  {
    ToolResult(NameOf(tool), FullEcho(tool), "Error: " + message)
  }

  /**
   * `execute(tool)` on the tree `d`, with the repository's other files
   * `project`: the envelope, and the tree afterwards.
   */
  function ExecuteSpec(d: Disk, project: map<string, string>, tool: Tool): (ToolResult, Disk)
  {
    match tool
    case ListDomainsTool =>
      (ToolResult("ListDomains", Json([]), Listing("Available domains:", ListDomains(d))), d)
    case ListTopicsTool(dom) =>
      (ToolResult("ListTopics", Json([("domain", dom)]), Listing("Topics in " + dom + " domain:", ListTopics(d, dom))), d)
    case ListMemoriesTool(dom, top) =>
      (ToolResult("ListMemories", Json([("domain", dom), ("topic", top)]),
        Listing("Memories in " + dom + "/" + top + ":", ListMemories(d, dom, top))), d)
    case ReadMemoryTool(dom, top, f) =>
      (match ReadMemory(d, dom, top, f)
       case Success(content) =>
         (ToolResult("ReadMemory", Json([("domain", dom), ("topic", top), ("filename", f)]), content), d)
       case Failure(e) => (ErrorResult(tool, Message(e)), d))
    case ReadFileTool(p) =>
      (match ReadProjectFile(project, p)
       case Success(content) => (ToolResult("ReadFile", Json([("path", p)]), content), d)
       case Failure(e) => (ErrorResult(tool, Message(e)), d))
    case WriteMemoryTool(a, dom, top, f, c) =>
      var (o, e) := WriteMemory(d, dom, top, f, c);
      if o.Fail? then (ErrorResult(tool, Message(o.error)), e)
      else
        var verb := if a == Create then "created" else "updated";
        (ToolResult("WriteMemory", Json([("action", ActionText(a)), ("domain", dom), ("topic", top), ("filename", f)]),
          "Successfully " + verb + " memory: " + dom + "/" + top + "/" + f), e)
    case DoneTool(_, _) => (ToolResult("Done", Json([]), "Done"), d)
    case Other(n) => (ErrorResult(tool, "Unknown tool: " + n), d)
  }

  // ---------------------------------------------------------------------------
  // What `execute` promises
  // ---------------------------------------------------------------------------

  /** The envelope always carries the request's own tag, and only a write changes the tree. */
  lemma ExecuteKeepsName(d: Disk, project: map<string, string>, tool: Tool)
    requires Valid(d)
    ensures ExecuteSpec(d, project, tool).0.toolName == NameOf(tool)
    ensures !tool.WriteMemoryTool? ==> ExecuteSpec(d, project, tool).1 == d
    ensures Valid(ExecuteSpec(d, project, tool).1)
  {
  }

  /** A read returns the file's text exactly when the file exists, and an error envelope echoing the whole request otherwise. */
  lemma ReadMemoryResult(d: Disk, project: map<string, string>, domain: string, topic: string, filename: string)
    ensures var tool := ReadMemoryTool(domain, topic, filename); var r := ExecuteSpec(d, project, tool).0;
      var p := MemoryPath(domain, topic, filename);
      && (p in d.files ==> r.output == d.files[p])
      && (p !in d.files && p in d.dirs ==> r == ErrorResult(tool, "EISDIR: illegal operation on a directory, read"))
      && (p !in d.files && p !in d.dirs ==>
            r == ErrorResult(tool, Message(FsError(if FileAbove(d, p) then ENOTDIR else ENOENT, "open", Some(PathText(p))))))
  {
  }

  lemma ReadFileResult(d: Disk, project: map<string, string>, path: string)
    ensures var tool := ReadFileTool(path); var r := ExecuteSpec(d, project, tool).0;
      && (path in project ==> r.output == project[path] && r.input == Json([("path", path)]))
      && (path !in project ==> r == ErrorResult(tool, Message(FsError(ENOENT, "open", Some(path)))))
  {
  }

  /**
   * A write succeeds exactly when the store's write does. On success the
   * output names the action and the memory, the echo omits the content, and
   * reading the memory back gives the content; on failure the tree is
   * unchanged and the output is the error's message.
   */
  lemma WriteMemoryResult(d: Disk, project: map<string, string>, a: WriteAction, domain: string, topic: string, filename: string, content: string)
    requires Valid(d)
    ensures var tool := WriteMemoryTool(a, domain, topic, filename, content);
      var (r, e) := ExecuteSpec(d, project, tool);
      var (o, _) := WriteMemory(d, domain, topic, filename, content);
      && (o.Pass? ==>
            && r.output == "Successfully " + (if a == Create then "created" else "updated") + " memory: " + domain + "/" + topic + "/" + filename
            && r.input == Json([("action", ActionText(a)), ("domain", domain), ("topic", topic), ("filename", filename)])
            && ReadMemory(e, domain, topic, filename) == Success(content))
      && (o.Fail? ==> r == ErrorResult(tool, Message(o.error)) && e == d)
  {
    if WriteMemory(d, domain, topic, filename, content).0.Pass? {
      WriteThenRead(d, domain, topic, filename, content);
    }
  }

  /** `Done` does nothing, and an unknown tag is an error envelope; neither touches the tree. */
  lemma DoneAndUnknown(d: Disk, project: map<string, string>, tool: Tool)
    requires tool.DoneTool? || tool.Other?
    ensures tool.DoneTool? ==> ExecuteSpec(d, project, tool) == (ToolResult("Done", "{}", "Done"), d)
    ensures tool.Other? ==> ExecuteSpec(d, project, tool) == (ErrorResult(tool, "Unknown tool: " + tool.name), d)
  {
    assert Members([]) == [];
    assert Join([], ",") == "";
    assert Json([]) == "{" + "" + "}" == "{}";
  }

  // ---------------------------------------------------------------------------
  // Listings read back line by line
  // ---------------------------------------------------------------------------

  /**
   * When no name holds a line break, the listing's lines are its title and
   * then `- name` for each name, in the order given; with no names the line
   * after the title is empty.
   */
  lemma ListingLines(title: string, names: seq<string>)
    requires '\n' !in title && forall i :: 0 <= i < |names| ==> '\n' !in names[i]
    ensures SplitOn(Listing(title, names), '\n') == [title] + (if |names| == 0 then [""] else Bullets(names))
  {
    var b := Bullets(names);
    assert Listing(title, names) == title + ['\n'] + Join(b, "\n");
    SplitAt(title, Join(b, "\n"), '\n');
    if |names| == 0 {
      assert SplitOn("", '\n') == [""];
    } else {
      forall i | 0 <= i < |b|
        ensures '\n' !in b[i]
      {
        assert b[i] == "- " + names[i];
      }
      SplitJoin(b, '\n');
    }
  }

  /** A name shows as a line `- name` below a listing's title exactly when it is one of the names listed. */
  lemma ListingShows(title: string, names: seq<string>, name: string)
    requires '\n' !in title && forall n :: n in names ==> '\n' !in n
    ensures var lines := SplitOn(Listing(title, names), '\n');
      && lines[0] == title
      && (("- " + name) in lines[1..] <==> name in names)
  {
    ListingLines(title, names);
    var b := Bullets(names);
    if ("- " + name) in b {
      var i :| 0 <= i < |b| && b[i] == "- " + name;
      assert ("- " + name)[2..] == name && b[i][2..] == names[i];
    }
    if name in names {
      var i :| 0 <= i < |names| && names[i] == name;
      assert b[i] == "- " + name;
    }
  }

  /** A domain shows as a line `- name` of the `ListDomains` output exactly when `listDomains` returns it. */
  lemma ListDomainsShows(d: Disk, project: map<string, string>, name: string)
    requires forall n :: n in ListDomains(d) ==> '\n' !in n
    ensures var lines := SplitOn(ExecuteSpec(d, project, ListDomainsTool).0.output, '\n');
      &&  lines[0] == "Available domains:"
      && (("- " + name) in lines[1..] <==> name in ListDomains(d))
  {
    ListingShows("Available domains:", ListDomains(d), name);
  }

  /** A topic shows as a line `- name` of the `ListTopics` output, below its titled domain, exactly when `listTopics` returns it. */
  lemma ListTopicsShows(d: Disk, project: map<string, string>, domain: string, name: string)
    requires '\n' !in domain && forall n :: n in ListTopics(d, domain) ==> '\n' !in n
    ensures var lines := SplitOn(ExecuteSpec(d, project, ListTopicsTool(domain)).0.output, '\n');
      &&  lines[0] == "Topics in " + domain + " domain:"
      && (("- " + name) in lines[1..] <==> name in ListTopics(d, domain))
  {
    ListingShows("Topics in " + domain + " domain:", ListTopics(d, domain), name);
  }

  /** A memory shows as a line `- name` of the `ListMemories` output, below its titled topic, exactly when `listMemories` returns it. */
  lemma ListMemoriesShows(d: Disk, project: map<string, string>, domain: string, topic: string, name: string)
    requires '\n' !in domain && '\n' !in topic && forall n :: n in ListMemories(d, domain, topic) ==> '\n' !in n
    ensures var lines := SplitOn(ExecuteSpec(d, project, ListMemoriesTool(domain, topic)).0.output, '\n');
      &&  lines[0] == "Memories in " + domain + "/" + topic + ":"
      && (("- " + name) in lines[1..] <==> name in ListMemories(d, domain, topic))
  {
    ListingShows("Memories in " + domain + "/" + topic + ":", ListMemories(d, domain, topic), name);
  }

  // ---------------------------------------------------------------------------
  // The executor object
  // ---------------------------------------------------------------------------

  class ToolExecutor {
    const store: Store.ContextTreeStore

    constructor(store: Store.ContextTreeStore)
      ensures this.store == store
    {
      this.store := store;
    }

    /** `execute(tool)`: one store call per request; a failed call becomes an `Error: ` envelope. */
    method Execute(tool: Tool) returns (r: ToolResult)
      requires store.Valid()
      modifies store
      ensures store.Valid()
      ensures (r, store.State()) == ExecuteSpec(old(store.State()), old(store.projectFiles), tool)
      ensures store.projectFiles == old(store.projectFiles)
    {
      match tool
      case ListDomainsTool =>
        var domains := store.ListDomains();
        r := ToolResult("ListDomains", Json([]), Listing("Available domains:", domains));
      case ListTopicsTool(dom) =>
        var topics := store.ListTopics(dom);
        r := ToolResult("ListTopics", Json([("domain", dom)]), Listing("Topics in " + dom + " domain:", topics));
      case ListMemoriesTool(dom, top) =>
        var memories := store.ListMemories(dom, top);
        r := ToolResult("ListMemories", Json([("domain", dom), ("topic", top)]), Listing("Memories in " + dom + "/" + top + ":", memories));
      case ReadMemoryTool(dom, top, f) =>
        var content := store.ReadMemory(dom, top, f);
        match content {
          case Success(c) =>
            r := ToolResult("ReadMemory", Json([("domain", dom), ("topic", top), ("filename", f)]), c);
          case Failure(e) =>
            r := ErrorResult(tool, Message(e));
        }
      case ReadFileTool(p) =>
        var content := store.ReadFile(p);
        match content {
          case Success(c) =>
            r := ToolResult("ReadFile", Json([("path", p)]), c);
          case Failure(e) =>
            r := ErrorResult(tool, Message(e));
        }
      case WriteMemoryTool(a, dom, top, f, c) =>
        var o := store.WriteMemory(dom, top, f, c);
        if o.Fail? {
          r := ErrorResult(tool, Message(o.error));
        } else {
          var verb := if a == Create then "created" else "updated";
          r := ToolResult("WriteMemory", Json([("action", ActionText(a)), ("domain", dom), ("topic", top), ("filename", f)]),
            "Successfully " + verb + " memory: " + dom + "/" + top + "/" + f);
        }
      case DoneTool(_, _) =>
        r := ToolResult("Done", Json([]), "Done");
      case Other(n) =>
        r := ErrorResult(tool, "Unknown tool: " + n);
    }
  }
}
