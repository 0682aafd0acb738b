/**
 * The operations of the store that walk the listings: clearing a topic, a
 * domain or the whole tree, the statistics and the rendered tree.
 *
 * Each walk visits domains, topics and memories in listing order; its
 * meaning is stated here on sets of memory paths and sums over the
 * listings, and the lemmas connect the two views.
 */
module TreeWalk {
  import opened Wrappers
  import opened Strings
  import opened TreeState

  /** `p` is a memory the listings reach from its topic directory. */
  predicate IsMemory(d: Disk, p: Path)
  {
    p.AtEntry? && p in d.files && EndsWith(p.name, MemoryExtension) && AtTopic(p.domain, p.topic) in d.dirs
  }

  /** The memories of the named topics of `domain`. */
  function TopicsMemories(d: Disk, domain: string, topics: seq<string>): set<Path>
  {
    set p | p in d.files && IsMemory(d, p) && p.domain == domain && p.topic in topics
  }

  /** The memories of the named domains, below domain directories that exist. */
  function DomainsMemories(d: Disk, domains: seq<string>): set<Path>
  {
    set p | p in d.files && IsMemory(d, p) && p.domain in domains && AtDomain(p.domain) in d.dirs
  }

  /** Every memory `clearAll` and `getStats` visit. */
  function AllMemories(d: Disk): set<Path>
  {
    DomainsMemories(d, ListDomains(d))
  }

  /** In a well-formed tree the memories visited are all `.md` files at depth three outside `node_modules`. */
  lemma AllMemoriesOfValid(d: Disk)
    requires Valid(d)
    ensures forall p :: p in AllMemories(d) <==> p.AtEntry? && p in d.files && EndsWith(p.name, MemoryExtension) && p.domain != HiddenDomain
  {
    ListDomainsSpec(d);
    forall p: Path | p.AtEntry? && p in d.files
      ensures AtTopic(p.domain, p.topic) in d.dirs && AtDomain(p.domain) in d.dirs && Root in d.dirs
    {
      assert Parent(p) == AtTopic(p.domain, p.topic) && Parent(Parent(p)) == AtDomain(p.domain) && Parent(AtDomain(p.domain)) == Root;
    }
  }

  /** The tree with the given files removed. */
  function Delete(d: Disk, paths: set<Path>): Disk
  {
    d.(files := d.files - paths)
  }

  predicate Distinct(xs: seq<string>)
  {
    forall i, j :: 0 <= i < j < |xs| ==> xs[i] != xs[j]
  }

  lemma SortedIsDistinct(xs: seq<string>)
    requires StrictlySorted(xs)
    ensures Distinct(xs)
  {
    forall i, j | 0 <= i < j < |xs| ensures xs[i] != xs[j] {
      SortedDistinct(xs, i, j);
    }
  }

  // ---------------------------------------------------------------------------
  // Counts and sizes, summed in listing order
  // ---------------------------------------------------------------------------

  /** The number of memories listed in the given topics of `domain`. */
  function SumMemories(d: Disk, domain: string, topics: seq<string>): nat
    decreases |topics|
  {
    if |topics| == 0 then 0
    else SumMemories(d, domain, topics[..|topics| - 1]) + |ListMemories(d, domain, topics[|topics| - 1])|
  }

  /** The `files` count of a domain in the statistics, and what `clearDomain` returns. */
  function DomainFileCount(d: Disk, domain: string): nat
  {
    SumMemories(d, domain, ListTopics(d, domain))
  }

  function SumDomainFiles(d: Disk, domains: seq<string>): nat
    decreases |domains|
  {
    if |domains| == 0 then 0
    else SumDomainFiles(d, domains[..|domains| - 1]) + DomainFileCount(d, domains[|domains| - 1])
  }

  /** `contextFiles` in the statistics, and what `clearAll` returns. */
  function TotalFiles(d: Disk): nat
  {
    SumDomainFiles(d, ListDomains(d))
  }

  function SumTopics(d: Disk, domains: seq<string>): nat
    decreases |domains|
  {
    if |domains| == 0 then 0
    else SumTopics(d, domains[..|domains| - 1]) + |ListTopics(d, domains[|domains| - 1])|
  }

  /** The size of a file; characters stand for bytes. */
  function SizeOf(d: Disk, p: Path): nat
  {
    if p in d.files then |d.files[p]| else 0
  }

  function SumSizes(d: Disk, domain: string, topic: string, names: seq<string>): nat
    decreases |names|
  {
    if |names| == 0 then 0
    else SumSizes(d, domain, topic, names[..|names| - 1]) + SizeOf(d, AtEntry(domain, topic, names[|names| - 1]))
  }

  function TopicsSize(d: Disk, domain: string, topics: seq<string>): nat
    decreases |topics|
  {
    if |topics| == 0 then 0
    else
      var t := topics[|topics| - 1];
      TopicsSize(d, domain, topics[..|topics| - 1]) + SumSizes(d, domain, t, ListMemories(d, domain, t))
  }

  function DomainsSize(d: Disk, domains: seq<string>): nat
    decreases |domains|
  {
    if |domains| == 0 then 0
    else
      var dom := domains[|domains| - 1];
      DomainsSize(d, domains[..|domains| - 1]) + TopicsSize(d, dom, ListTopics(d, dom))
  }

  // ---------------------------------------------------------------------------
  // Listings that a removal does not reach
  // ---------------------------------------------------------------------------

  lemma ListDomainsFrame(d: Disk, e: Disk)
    requires d.dirs == e.dirs
    ensures ListDomains(d) == ListDomains(e)
  {
    ListDomainsSpec(d);
    ListDomainsSpec(e);
    SortedUnique(ListDomains(d), ListDomains(e));
  }

  lemma ListTopicsFrame(d: Disk, e: Disk, domain: string)
    requires d.dirs == e.dirs
    ensures ListTopics(d, domain) == ListTopics(e, domain)
  {
    ListTopicsSpec(d, domain);
    ListTopicsSpec(e, domain);
    SortedUnique(ListTopics(d, domain), ListTopics(e, domain));
  }

  lemma ListMemoriesFrame(d: Disk, e: Disk, domain: string, topic: string)
    requires d.dirs == e.dirs
    requires forall n :: AtEntry(domain, topic, n) in d.files <==> AtEntry(domain, topic, n) in e.files
    ensures ListMemories(d, domain, topic) == ListMemories(e, domain, topic)
  {
    ListMemoriesSpec(d, domain, topic);
    ListMemoriesSpec(e, domain, topic);
    SortedUnique(ListMemories(d, domain, topic), ListMemories(e, domain, topic));
  }

  lemma {:induction false} SumMemoriesFrame(d: Disk, e: Disk, domain: string, topics: seq<string>)
    requires d.dirs == e.dirs
    requires forall t, n :: t in topics ==> (AtEntry(domain, t, n) in d.files <==> AtEntry(domain, t, n) in e.files)
    ensures SumMemories(d, domain, topics) == SumMemories(e, domain, topics)
    decreases |topics|
  {
    if |topics| > 0 {
      var t := topics[|topics| - 1];
      ListMemoriesFrame(d, e, domain, t);
      SumMemoriesFrame(d, e, domain, topics[..|topics| - 1]);
    }
  }

  // ---------------------------------------------------------------------------
  // Clearing
  // ---------------------------------------------------------------------------

  /** `clearTopic`: the number of memories listed, and the tree without them. */
  function ClearTopic(d: Disk, domain: string, topic: string): (nat, Disk)
  {
    (|ListMemories(d, domain, topic)|, Delete(d, TopicsMemories(d, domain, [topic])))
  }

  /** `clearDomain`: every listed topic cleared in turn. */
  function ClearDomain(d: Disk, domain: string): (nat, Disk)
  {
    (DomainFileCount(d, domain), Delete(d, TopicsMemories(d, domain, ListTopics(d, domain))))
  }

  /** `clearAll`: every listed domain cleared in turn. */
  function ClearAll(d: Disk): (nat, Disk)
  {
    (TotalFiles(d), Delete(d, AllMemories(d)))
  }

  /** The paths of the given names in one topic. */
  function Named(domain: string, topic: string, names: seq<string>): (r: set<Path>)
    ensures forall p :: p in r <==> p.AtEntry? && p.domain == domain && p.topic == topic && p.name in names
  {
    set n | n in names :: AtEntry(domain, topic, n)
  }

  /** Deleting the listed names one by one removes exactly the topic's memories. */
  lemma NamedListed(d: Disk, domain: string, topic: string)
    ensures Named(domain, topic, ListMemories(d, domain, topic)) == TopicsMemories(d, domain, [topic])
  {
    ListMemoriesSpec(d, domain, topic);
  }

  lemma {:induction false} NamedSize(domain: string, topic: string, names: seq<string>)
    requires Distinct(names)
    ensures |Named(domain, topic, names)| == |names|
    decreases |names|
  {
    if |names| > 0 {
      var init, last := names[..|names| - 1], names[|names| - 1];
      assert names == init + [last];
      NamedSize(domain, topic, init);
      assert Named(domain, topic, names) == Named(domain, topic, init) + {AtEntry(domain, topic, last)};
      assert AtEntry(domain, topic, last) !in Named(domain, topic, init);
    }
  }

  lemma TopicMemoriesSize(d: Disk, domain: string, topic: string)
    ensures |TopicsMemories(d, domain, [topic])| == |ListMemories(d, domain, topic)|
  {
    var ms := ListMemories(d, domain, topic);
    NamedListed(d, domain, topic);
    ListMemoriesSpec(d, domain, topic);
    SortedIsDistinct(ms);
    NamedSize(domain, topic, ms);
  }

  lemma {:induction false} TopicsMemoriesSize(d: Disk, domain: string, topics: seq<string>)
    requires Distinct(topics)
    ensures |TopicsMemories(d, domain, topics)| == SumMemories(d, domain, topics)
    decreases |topics|
  {
    if |topics| > 0 {
      var init, t := topics[..|topics| - 1], topics[|topics| - 1];
      assert topics == init + [t];
      TopicsMemoriesSize(d, domain, init);
      TopicMemoriesSize(d, domain, t);
      assert TopicsMemories(d, domain, topics) == TopicsMemories(d, domain, init) + TopicsMemories(d, domain, [t]);
      assert TopicsMemories(d, domain, init) !! TopicsMemories(d, domain, [t]);
    }
  }

  /** The memories of one domain are those of its listed topics. */
  lemma DomainMemoriesByTopics(d: Disk, domain: string)
    ensures DomainsMemories(d, [domain]) == TopicsMemories(d, domain, ListTopics(d, domain))
  {
    ListTopicsSpec(d, domain);
  }

  lemma {:induction false} DomainsMemoriesSize(d: Disk, domains: seq<string>)
    requires Distinct(domains)
    ensures |DomainsMemories(d, domains)| == SumDomainFiles(d, domains)
    decreases |domains|
  {
    if |domains| > 0 {
      var init, dom := domains[..|domains| - 1], domains[|domains| - 1];
      assert domains == init + [dom];
      DomainsMemoriesSize(d, init);
      DomainMemoriesByTopics(d, dom);
      ListTopicsSpec(d, dom); SortedIsDistinct(ListTopics(d, dom));
      TopicsMemoriesSize(d, dom, ListTopics(d, dom));
      assert DomainsMemories(d, domains) == DomainsMemories(d, init) + DomainsMemories(d, [dom]);
      assert DomainsMemories(d, init) !! DomainsMemories(d, [dom]);
    }
  }

  /** `contextFiles` and the value of `clearAll` count exactly the memories visited. */
  lemma TotalFilesCounts(d: Disk)
    ensures TotalFiles(d) == |AllMemories(d)|
  {
    ListDomainsSpec(d); SortedIsDistinct(ListDomains(d));
    DomainsMemoriesSize(d, ListDomains(d));
  }

  lemma DeleteSize(d: Disk, paths: set<Path>)
    requires paths <= d.files.Keys
    ensures |Delete(d, paths).files| == |d.files| - |paths|
  {
    assert Delete(d, paths).files.Keys == d.files.Keys - paths;
    assert |d.files.Keys - paths| == |d.files.Keys| - |paths|;
  }

  /** The tree after `clearTopic` differs from the one before only in the memories of that topic. */
  ghost predicate OnlyRemoved(d: Disk, e: Disk, paths: set<Path>)
  {
    && e.dirs == d.dirs && e.config == d.config
    && (forall p :: p in e.files <==> p in d.files && p !in paths)
    && (forall p :: p in e.files ==> e.files[p] == d.files[p])
  }

  /**
   * `clearTopic` empties the topic's listing, leaves every other listing
   * and every other file as it was, and returns the number of files it
   * deleted.
   */
  lemma ClearTopicEffect(d: Disk, domain: string, topic: string)
    ensures var (count, e) := ClearTopic(d, domain, topic);
      && OnlyRemoved(d, e, TopicsMemories(d, domain, [topic]))
      && ListMemories(e, domain, topic) == []
      && (forall dom, t :: (dom, t) != (domain, topic) ==> ListMemories(e, dom, t) == ListMemories(d, dom, t))
      && ListDomains(e) == ListDomains(d)
      && (forall dom :: ListTopics(e, dom) == ListTopics(d, dom))
      && count == |d.files| - |e.files|
  {
    var (count, e) := ClearTopic(d, domain, topic);
    forall dom ensures ListTopics(e, dom) == ListTopics(d, dom) {
      ListTopicsFrame(d, e, dom);
    }
    forall dom, t | (dom, t) != (domain, topic)
      ensures ListMemories(e, dom, t) == ListMemories(d, dom, t)
    {
      ListMemoriesFrame(d, e, dom, t);
    }
    ListDomainsFrame(d, e);
    TopicMemoriesSize(d, domain, topic);
    DeleteSize(d, TopicsMemories(d, domain, [topic]));
  }

  /**
   * `clearDomain` empties the listing of every topic of the domain, leaves
   * the other domains and every other file as they were, and returns the
   * number of files it deleted.
   */
  lemma ClearDomainEffect(d: Disk, domain: string)
    ensures var (count, e) := ClearDomain(d, domain);
      && OnlyRemoved(d, e, TopicsMemories(d, domain, ListTopics(d, domain)))
      && (forall t :: t in ListTopics(d, domain) ==> ListMemories(e, domain, t) == [])
      && (forall dom, t :: dom != domain ==> ListMemories(e, dom, t) == ListMemories(d, dom, t))
      && ListTopics(e, domain) == ListTopics(d, domain)
      && count == |d.files| - |e.files|
  {
    var (count, e) := ClearDomain(d, domain);
    var topics := ListTopics(d, domain);
    forall t | t in topics ensures ListMemories(e, domain, t) == [] {
      assert forall n :: n !in ListMemories(e, domain, t);
    }
    forall dom, t | dom != domain ensures ListMemories(e, dom, t) == ListMemories(d, dom, t) {
      ListMemoriesFrame(d, e, dom, t);
    }
    ListTopicsFrame(d, e, domain);
    ListTopicsSpec(d, domain);
    SortedIsDistinct(topics);
    TopicsMemoriesSize(d, domain, topics);
    DeleteSize(d, TopicsMemories(d, domain, topics));
  }

  /**
   * `clearAll` on a well-formed tree leaves no memory in any listing
   * outside `node_modules`, keeps every directory and every other file,
   * and returns the number of files it deleted.
   */
  lemma ClearAllEffect(d: Disk)
    requires Valid(d)
    ensures var (count, e) := ClearAll(d);
      && OnlyRemoved(d, e, AllMemories(d))
      && Valid(e)
      && (forall dom, t :: dom != HiddenDomain ==> ListMemories(e, dom, t) == [])
      && AllMemories(e) == {}
      && count == |d.files| - |e.files|
  {
    var (count, e) := ClearAll(d);
    AllMemoriesOfValid(d);
    forall dom, t | dom != HiddenDomain ensures ListMemories(e, dom, t) == [] {
      assert forall n :: n !in ListMemories(e, dom, t);
    }
    ListDomainsFrame(d, e);
    TotalFilesCounts(d);
    DeleteSize(d, AllMemories(d));
  }

  lemma DeleteTwice(d: Disk, a: set<Path>, b: set<Path>)
    ensures Delete(Delete(d, a), b) == Delete(d, a + b)
  {
    assert (d.files - a) - b == d.files - (a + b);
  }

  lemma NotInDone(d: Disk, domain: string, done: seq<string>, topic: string)
    requires topic !in done
    ensures forall n :: AtEntry(domain, topic, n) !in TopicsMemories(d, domain, done)
    ensures TopicsMemories(d, domain, done) !! TopicsMemories(d, domain, [topic])
  {
  }

  lemma DeleteDisjoint(d: Disk, a: set<Path>, domain: string, topics: seq<string>)
    requires a !! TopicsMemories(d, domain, topics)
    ensures TopicsMemories(Delete(d, a), domain, topics) == TopicsMemories(d, domain, topics)
  {
  }

  lemma TopicsMemoriesAppend(d: Disk, domain: string, done: seq<string>, topic: string)
    ensures TopicsMemories(d, domain, done + [topic]) == TopicsMemories(d, domain, done) + TopicsMemories(d, domain, [topic])
  {
  }

  /** One deletion of the `clearTopic` loop: the next listed name is still there, and removing it extends the removed set. */
  lemma DeleteNamedStep(d: Disk, domain: string, topic: string, names: seq<string>, i: nat)
    requires i < |names| && Distinct(names)
    requires forall n :: n in names ==> AtEntry(domain, topic, n) in d.files
    ensures AtEntry(domain, topic, names[i]) in Delete(d, Named(domain, topic, names[..i])).files
    ensures Delete(Delete(d, Named(domain, topic, names[..i])), {AtEntry(domain, topic, names[i])})
      == Delete(d, Named(domain, topic, names[..i + 1]))
  {
    var p := AtEntry(domain, topic, names[i]);
    assert names[i] in names;
    assert names[i] !in names[..i];
    assert names[..i + 1] == names[..i] + [names[i]];
    assert Named(domain, topic, names[..i + 1]) == Named(domain, topic, names[..i]) + {p};
    DeleteTwice(d, Named(domain, topic, names[..i]), {p});
  }

  lemma SumMemoriesStep(d: Disk, domain: string, topics: seq<string>, j: nat)
    requires j < |topics|
    ensures SumMemories(d, domain, topics[..j + 1]) == SumMemories(d, domain, topics[..j]) + |ListMemories(d, domain, topics[j])|
  {
    assert topics[..j + 1][..j] == topics[..j];
  }

  lemma TopicsSizeStep(d: Disk, domain: string, topics: seq<string>, j: nat)
    requires j < |topics|
    ensures TopicsSize(d, domain, topics[..j + 1])
      == TopicsSize(d, domain, topics[..j]) + SumSizes(d, domain, topics[j], ListMemories(d, domain, topics[j]))
  {
    assert topics[..j + 1][..j] == topics[..j];
  }

  lemma SumSizesStep(d: Disk, domain: string, topic: string, names: seq<string>, k: nat)
    requires k < |names|
    ensures SumSizes(d, domain, topic, names[..k + 1]) == SumSizes(d, domain, topic, names[..k]) + SizeOf(d, AtEntry(domain, topic, names[k]))
  {
    assert names[..k + 1][..k] == names[..k];
  }

  /** Clearing one more topic of a domain, after others: the step of the `clearDomain` loop. */
  lemma ClearTopicStep(d: Disk, domain: string, done: seq<string>, topic: string)
    requires topic !in done
    ensures ClearTopic(Delete(d, TopicsMemories(d, domain, done)), domain, topic)
      == (|ListMemories(d, domain, topic)|, Delete(d, TopicsMemories(d, domain, done + [topic])))
  {
    var a := TopicsMemories(d, domain, done);
    var e := Delete(d, a);
    var b := TopicsMemories(d, domain, [topic]);
    NotInDone(d, domain, done, topic);
    ListMemoriesFrame(d, e, domain, topic);
    DeleteDisjoint(d, a, domain, [topic]);
    TopicsMemoriesAppend(d, domain, done, topic);
    DeleteTwice(d, a, b);
  }

  /** The `i`-th step of the `clearDomain` loop over distinct topics: the tree and the running count it leaves. */
  lemma ClearTopicAt(d: Disk, domain: string, topics: seq<string>, i: nat)
    requires i < |topics| && Distinct(topics)
    ensures ClearTopic(Delete(d, TopicsMemories(d, domain, topics[..i])), domain, topics[i])
      == (|ListMemories(d, domain, topics[i])|, Delete(d, TopicsMemories(d, domain, topics[..i + 1])))
    ensures SumMemories(d, domain, topics[..i + 1]) == SumMemories(d, domain, topics[..i]) + |ListMemories(d, domain, topics[i])|
  {
    assert topics[i] !in topics[..i];
    assert topics[..i + 1] == topics[..i] + [topics[i]];
    ClearTopicStep(d, domain, topics[..i], topics[i]);
    SumMemoriesStep(d, domain, topics, i);
  }

  /** Clearing one more domain, after others: the step of the `clearAll` loop. */
  lemma ClearDomainStep(d: Disk, done: seq<string>, domain: string)
    requires domain !in done
    ensures ClearDomain(Delete(d, DomainsMemories(d, done)), domain)
      == (DomainFileCount(d, domain), Delete(d, DomainsMemories(d, done + [domain])))
  {
    var a := DomainsMemories(d, done);
    var e := Delete(d, a);
    var topics := ListTopics(d, domain);
    assert forall t, n :: AtEntry(domain, t, n) !in a;
    ListTopicsFrame(d, e, domain);
    SumMemoriesFrame(d, e, domain, topics);
    assert DomainFileCount(e, domain) == DomainFileCount(d, domain);
    var b := TopicsMemories(d, domain, topics);
    assert TopicsMemories(e, domain, topics) == b;
    DomainMemoriesByTopics(d, domain);
    assert DomainsMemories(d, done + [domain]) == a + b;
    DeleteTwice(d, a, b);
  }

  // ---------------------------------------------------------------------------
  // Statistics
  // ---------------------------------------------------------------------------

  datatype DomainInfo = DomainInfo(name: string, topics: nat, files: nat)

  datatype Stats = Stats(domains: nat, topics: nat, contextFiles: nat, totalSize: nat, domainInfo: seq<DomainInfo>)

  function DomainInfoOf(d: Disk, domain: string): DomainInfo
  {
    DomainInfo(domain, |ListTopics(d, domain)|, DomainFileCount(d, domain))
  }

  /** One statistics entry per domain, in order. */
  function DomainInfos(d: Disk, ds: seq<string>): (r: seq<DomainInfo>)
    ensures |r| == |ds|
  {
    seq(|ds|, i requires 0 <= i < |ds| => DomainInfoOf(d, ds[i]))
  }

  /** `getStats`: one entry per listed domain with its topic and memory counts, and the totals over all of them. */
  function TreeStats(d: Disk): Stats
  {
    var ds := ListDomains(d);
    Stats(|ds|, SumTopics(d, ds), TotalFiles(d), DomainsSize(d, ds), DomainInfos(d, ds))
  }

  /** The sum of the `topics` counts of the entries. */
  function InfoTopics(infos: seq<DomainInfo>): nat
    decreases |infos|
  {
    if |infos| == 0 then 0 else InfoTopics(infos[..|infos| - 1]) + infos[|infos| - 1].topics
  }

  /** The sum of the `files` counts of the entries. */
  function InfoFiles(infos: seq<DomainInfo>): nat
    decreases |infos|
  {
    if |infos| == 0 then 0 else InfoFiles(infos[..|infos| - 1]) + infos[|infos| - 1].files
  }

  /** The entries' counts add up to the running totals of the domain loop. */
  lemma {:induction false} InfoSums(d: Disk, ds: seq<string>)
    ensures InfoTopics(DomainInfos(d, ds)) == SumTopics(d, ds)
    ensures InfoFiles(DomainInfos(d, ds)) == SumDomainFiles(d, ds)
    decreases |ds|
  {
    if |ds| > 0 {
      var n := |ds| - 1;
      assert DomainInfos(d, ds)[..n] == DomainInfos(d, ds[..n]);
      InfoSums(d, ds[..n]);
    }
  }

  /** The summed sizes of a set of files, in no particular order. */
  ghost function SetSize(d: Disk, ps: set<Path>): nat
    decreases ps
  {
    if ps == {} then 0 else var p :| p in ps; SizeOf(d, p) + SetSize(d, ps - {p})
  }

  /** Any element may be taken out first. */
  lemma {:induction false} SetSizeRemove(d: Disk, ps: set<Path>, q: Path)
    requires q in ps
    ensures SetSize(d, ps) == SizeOf(d, q) + SetSize(d, ps - {q})
    decreases ps
  {
    var p :| p in ps && SetSize(d, ps) == SizeOf(d, p) + SetSize(d, ps - {p});
    if p != q {
      SetSizeRemove(d, ps - {p}, q);
      SetSizeRemove(d, ps - {q}, p);
      assert ps - {p} - {q} == ps - {q} - {p};
    }
  }

  lemma {:induction false} SetSizeUnion(d: Disk, a: set<Path>, b: set<Path>)
    requires a !! b
    ensures SetSize(d, a + b) == SetSize(d, a) + SetSize(d, b)
    decreases a
  {
    if a == {} {
      assert a + b == b;
    } else {
      var p :| p in a;
      SetSizeRemove(d, a + b, p);
      SetSizeRemove(d, a, p);
      assert (a + b) - {p} == (a - {p}) + b;
      SetSizeUnion(d, a - {p}, b);
    }
  }

  lemma SetSizeSingle(d: Disk, q: Path)
    ensures SetSize(d, {q}) == SizeOf(d, q)
  {
    SetSizeRemove(d, {q}, q);
    assert {q} - {q} == {};
  }

  lemma {:induction false} NamedSetSize(d: Disk, domain: string, topic: string, names: seq<string>)
    requires Distinct(names)
    ensures SetSize(d, Named(domain, topic, names)) == SumSizes(d, domain, topic, names)
    decreases |names|
  {
    if |names| > 0 {
      var init, last := names[..|names| - 1], names[|names| - 1];
      assert names == init + [last];
      NamedSetSize(d, domain, topic, init);
      var q := AtEntry(domain, topic, last);
      assert Named(domain, topic, names) == Named(domain, topic, init) + {q};
      assert q !in Named(domain, topic, init) by {
        forall k | 0 <= k < |init| ensures init[k] != last { assert init[k] == names[k]; }
      }
      SetSizeUnion(d, Named(domain, topic, init), {q});
      SetSizeSingle(d, q);
    }
  }

  lemma TopicSetSize(d: Disk, domain: string, topic: string)
    ensures SetSize(d, TopicsMemories(d, domain, [topic])) == SumSizes(d, domain, topic, ListMemories(d, domain, topic))
  {
    NamedListed(d, domain, topic);
    ListMemoriesSpec(d, domain, topic); SortedIsDistinct(ListMemories(d, domain, topic));
    NamedSetSize(d, domain, topic, ListMemories(d, domain, topic));
  }

  lemma TopicsMemoriesSplit(d: Disk, domain: string, init: seq<string>, t: string)
    requires t !in init
    ensures TopicsMemories(d, domain, init + [t]) == TopicsMemories(d, domain, init) + TopicsMemories(d, domain, [t])
    ensures TopicsMemories(d, domain, init) !! TopicsMemories(d, domain, [t])
  {
  }

  lemma {:induction false} TopicsSetSize(d: Disk, domain: string, topics: seq<string>)
    requires Distinct(topics)
    ensures SetSize(d, TopicsMemories(d, domain, topics)) == TopicsSize(d, domain, topics)
    decreases |topics|
  {
    if |topics| > 0 {
      var init, t := topics[..|topics| - 1], topics[|topics| - 1];
      assert topics == init + [t];
      TopicsSetSize(d, domain, init);
      TopicSetSize(d, domain, t);
      assert t !in init by {
        forall k | 0 <= k < |init| ensures init[k] != t { assert init[k] == topics[k]; }
      }
      TopicsMemoriesSplit(d, domain, init, t);
      SetSizeUnion(d, TopicsMemories(d, domain, init), TopicsMemories(d, domain, [t]));
    }
  }

  lemma {:induction false} DomainsSetSize(d: Disk, domains: seq<string>)
    requires Distinct(domains)
    ensures SetSize(d, DomainsMemories(d, domains)) == DomainsSize(d, domains)
    decreases |domains|
  {
    if |domains| > 0 {
      var init, dom := domains[..|domains| - 1], domains[|domains| - 1];
      assert domains == init + [dom];
      DomainsSetSize(d, init);
      DomainMemoriesByTopics(d, dom);
      ListTopicsSpec(d, dom); SortedIsDistinct(ListTopics(d, dom));
      TopicsSetSize(d, dom, ListTopics(d, dom));
      assert DomainsMemories(d, domains) == DomainsMemories(d, init) + DomainsMemories(d, [dom]);
      SetSizeUnion(d, DomainsMemories(d, init), DomainsMemories(d, [dom]));
    }
  }

  /**
   * The statistics list the domains in order, give each domain its number
   * of listed topics and the memories of those topics, and give as totals
   * the sums of the entries: the topics, exactly the memories of the tree,
   * and the summed sizes of those memories.
   */
  lemma TreeStatsSpec(d: Disk)
    ensures var s := TreeStats(d);
      && s.domains == |ListDomains(d)| == |s.domainInfo|
      && (forall i :: 0 <= i < |s.domainInfo| ==> s.domainInfo[i].name == ListDomains(d)[i])
      && (forall i :: 0 <= i < |s.domainInfo| ==> s.domainInfo[i].topics == |ListTopics(d, s.domainInfo[i].name)|)
      && (forall i :: 0 <= i < |s.domainInfo| ==>
            s.domainInfo[i].files == |TopicsMemories(d, s.domainInfo[i].name, ListTopics(d, s.domainInfo[i].name))|)
      && s.topics == InfoTopics(s.domainInfo)
      && s.contextFiles == InfoFiles(s.domainInfo) == |AllMemories(d)|
      && s.totalSize == SetSize(d, AllMemories(d))
  {
    var ds := ListDomains(d);
    forall i | 0 <= i < |ds|
      ensures DomainFileCount(d, ds[i]) == |TopicsMemories(d, ds[i], ListTopics(d, ds[i]))|
    {
      ListTopicsSpec(d, ds[i]); SortedIsDistinct(ListTopics(d, ds[i]));
      TopicsMemoriesSize(d, ds[i], ListTopics(d, ds[i]));
    }
    TotalFilesCounts(d);
    InfoSums(d, ds);
    ListDomainsSpec(d); SortedIsDistinct(ds);
    DomainsSetSize(d, ds);
  }

  /** The `i`-th step of the `getStats` domain loop: each running total grows by that domain's share. */
  lemma StatsStep(d: Disk, ds: seq<string>, i: nat)
    requires i < |ds|
    ensures SumTopics(d, ds[..i + 1]) == SumTopics(d, ds[..i]) + |ListTopics(d, ds[i])|
    ensures SumDomainFiles(d, ds[..i + 1]) == SumDomainFiles(d, ds[..i]) + DomainFileCount(d, ds[i])
    ensures DomainsSize(d, ds[..i + 1]) == DomainsSize(d, ds[..i]) + TopicsSize(d, ds[i], ListTopics(d, ds[i]))
    ensures DomainInfos(d, ds[..i + 1]) == DomainInfos(d, ds[..i]) + [DomainInfoOf(d, ds[i])]
  {
    assert ds[..i + 1][..i] == ds[..i];
  }

  /** After `clearAll` the statistics count no memory, and the same domains. */
  lemma StatsAfterClearAll(d: Disk)
    requires Valid(d)
    ensures TreeStats(ClearAll(d).1).contextFiles == 0
    ensures TreeStats(ClearAll(d).1).domains == TreeStats(d).domains
  {
    ClearAllEffect(d);
    TreeStatsSpec(ClearAll(d).1);
    ListDomainsFrame(d, ClearAll(d).1);
  }

  // ---------------------------------------------------------------------------
  // The rendered tree
  // ---------------------------------------------------------------------------

  /** The branch drawn before an entry. */
  function Connector(isLast: bool): string
  {
    if isLast then "└── " else "├── "
  }

  /** The indentation below an entry, continuing its parent's branch unless it was the last. */
  function Indent(isLast: bool): string
  {
    if isLast then "    " else "│   "
  }

  /** The line of a memory: both ancestors' indentation, its branch, its name. */
  function MemoryLine(lastDomain: bool, lastTopic: bool, lastMemory: bool, name: string): string
  {
    Indent(lastDomain) + Indent(lastTopic) + Connector(lastMemory) + name
  }

  /** The line of a topic, with a trailing `/`. */
  function TopicLine(lastDomain: bool, lastTopic: bool, topic: string): string
  {
    Indent(lastDomain) + Connector(lastTopic) + topic + "/"
  }

  /** The line of a domain, with a trailing `/`. */
  function DomainLine(lastDomain: bool, domain: string): string
  {
    Connector(lastDomain) + domain + "/"
  }

  function MemoryLines(d: Disk, domain: string, lastDomain: bool, topic: string, lastTopic: bool): (r: seq<string>)
    ensures |r| == |ListMemories(d, domain, topic)|
  {
    var ms := ListMemories(d, domain, topic);
    seq(|ms|, k requires 0 <= k < |ms| => MemoryLine(lastDomain, lastTopic, k == |ms| - 1, ms[k]))
  }

  function TopicBlock(d: Disk, domain: string, lastDomain: bool, topic: string, lastTopic: bool): seq<string>
  {
    [TopicLine(lastDomain, lastTopic, topic)] + MemoryLines(d, domain, lastDomain, topic, lastTopic)
  }

  /** The blocks of the given topics of `domain`, the last one drawn as last. */
  function TopicBlocksOf(d: Disk, domain: string, lastDomain: bool, ts: seq<string>): (r: seq<seq<string>>)
    ensures |r| == |ts|
  {
    seq(|ts|, j requires 0 <= j < |ts| => TopicBlock(d, domain, lastDomain, ts[j], j == |ts| - 1))
  }

  function TopicBlocks(d: Disk, domain: string, lastDomain: bool): (r: seq<seq<string>>)
    ensures |r| == |ListTopics(d, domain)|
  {
    TopicBlocksOf(d, domain, lastDomain, ListTopics(d, domain))
  }

  function DomainBlock(d: Disk, domain: string, lastDomain: bool): seq<string>
  {
    [DomainLine(lastDomain, domain)] + Flatten(TopicBlocks(d, domain, lastDomain))
  }

  /** The blocks of the given domains, the last one drawn as last. */
  function DomainBlocksOf(d: Disk, ds: seq<string>): (r: seq<seq<string>>)
    ensures |r| == |ds|
  {
    seq(|ds|, i requires 0 <= i < |ds| => DomainBlock(d, ds[i], i == |ds| - 1))
  }

  function DomainBlocks(d: Disk): (r: seq<seq<string>>)
    ensures |r| == |ListDomains(d)|
  {
    DomainBlocksOf(d, ListDomains(d))
  }

  /** The lines `getTreeStructure` joins: a header, then each domain, its topics and their memories. */
  function TreeLines(d: Disk): seq<string>
  {
    ["context_tree/"] + Flatten(DomainBlocks(d))
  }

  lemma {:induction false} TopicBlocksLength(d: Disk, domain: string, topics: seq<string>, blocks: seq<seq<string>>)
    requires |blocks| == |topics|
    requires forall j :: 0 <= j < |topics| ==> |blocks[j]| == 1 + |ListMemories(d, domain, topics[j])|
    ensures |Flatten(blocks)| == |topics| + SumMemories(d, domain, topics)
    decreases |topics|
  {
    if |topics| > 0 {
      var n := |topics| - 1;
      assert blocks == blocks[..n] + [blocks[n]];
      FlattenAppend(blocks[..n], blocks[n]);
      TopicBlocksLength(d, domain, topics[..n], blocks[..n]);
    }
  }

  lemma DomainBlockLength(d: Disk, domain: string, lastDomain: bool)
    ensures |DomainBlock(d, domain, lastDomain)| == 1 + |ListTopics(d, domain)| + DomainFileCount(d, domain)
  {
    TopicBlocksLength(d, domain, ListTopics(d, domain), TopicBlocks(d, domain, lastDomain));
  }

  lemma {:induction false} DomainBlocksLength(d: Disk, domains: seq<string>, blocks: seq<seq<string>>)
    requires |blocks| == |domains|
    requires forall i :: 0 <= i < |domains| ==> |blocks[i]| == 1 + |ListTopics(d, domains[i])| + DomainFileCount(d, domains[i])
    ensures |Flatten(blocks)| == |domains| + SumTopics(d, domains) + SumDomainFiles(d, domains)
    decreases |domains|
  {
    if |domains| > 0 {
      var n := |domains| - 1;
      assert blocks == blocks[..n] + [blocks[n]];
      FlattenAppend(blocks[..n], blocks[n]);
      DomainBlocksLength(d, domains[..n], blocks[..n]);
    }
  }

  /** The rendered tree has one line for the header and one per domain, topic and memory listed. */
  lemma TreeLineCount(d: Disk)
    ensures |TreeLines(d)| == 1 + TreeStats(d).domains + TreeStats(d).topics + TreeStats(d).contextFiles
  {
    var ds := ListDomains(d);
    var blocks := DomainBlocks(d);
    forall i | 0 <= i < |ds|
      ensures |blocks[i]| == 1 + |ListTopics(d, ds[i])| + DomainFileCount(d, ds[i])
    {
      DomainBlockLength(d, ds[i], i == |ds| - 1);
    }
    DomainBlocksLength(d, ds, blocks);
  }

  /** Each domain block is a contiguous run of lines of the tree. */
  lemma DomainBlockInTree(d: Disk, i: nat)
    requires i < |ListDomains(d)|
    ensures Contains(TreeLines(d), DomainBlocks(d)[i])
  {
    var blocks := DomainBlocks(d);
    FlattenContainsPart(blocks, i);
    assert TreeLines(d) == ["context_tree/"] + Flatten(blocks) + [];
    ContainsInContext(Flatten(blocks), blocks[i], ["context_tree/"], []);
  }

  /** Each topic block is a contiguous run of lines of the tree. */
  lemma TopicBlockInTree(d: Disk, i: nat, j: nat)
    requires i < |ListDomains(d)|
    requires j < |ListTopics(d, ListDomains(d)[i])|
    ensures Contains(TreeLines(d), TopicBlocks(d, ListDomains(d)[i], i == |ListDomains(d)| - 1)[j])
  {
    var ds := ListDomains(d);
    var db := DomainBlocks(d)[i];
    var tblocks := TopicBlocks(d, ds[i], i == |ds| - 1);
    DomainBlockInTree(d, i);
    FlattenContainsPart(tblocks, j);
    assert db == [db[0]] + Flatten(tblocks) + [];
    ContainsInContext(Flatten(tblocks), tblocks[j], [db[0]], []);
    ContainsTransitive(TreeLines(d), db, tblocks[j]);
  }

  /** Every listed domain has its own line, drawn with its branch. */
  lemma TreeShowsDomain(d: Disk, i: nat)
    requires i < |ListDomains(d)|
    ensures var ds := ListDomains(d);
      Contains(TreeLines(d), [DomainLine(i == |ds| - 1, ds[i])])
  {
    var db := DomainBlocks(d)[i];
    DomainBlockInTree(d, i);
    assert SliceAt(db, [db[0]], 0);
    ContainsTransitive(TreeLines(d), db, [db[0]]);
  }

  /** Every listed topic has its own line, below its domain's branch. */
  lemma TreeShowsTopic(d: Disk, i: nat, j: nat)
    requires i < |ListDomains(d)|
    requires j < |ListTopics(d, ListDomains(d)[i])|
    ensures var ds := ListDomains(d);
      var ts := ListTopics(d, ds[i]);
      Contains(TreeLines(d), [TopicLine(i == |ds| - 1, j == |ts| - 1, ts[j])])
  {
    var ds := ListDomains(d);
    var tb := TopicBlocks(d, ds[i], i == |ds| - 1)[j];
    TopicBlockInTree(d, i, j);
    assert SliceAt(tb, [tb[0]], 0);
    ContainsTransitive(TreeLines(d), tb, [tb[0]]);
  }

  lemma MemoryLineInBlock(d: Disk, domain: string, lastDomain: bool, topic: string, lastTopic: bool, k: nat)
    requires k < |ListMemories(d, domain, topic)|
    ensures var ms := ListMemories(d, domain, topic);
      Contains(TopicBlock(d, domain, lastDomain, topic, lastTopic),
        [MemoryLine(lastDomain, lastTopic, k == |ms| - 1, ms[k])])
  {
    var tb := TopicBlock(d, domain, lastDomain, topic, lastTopic);
    var mlines := MemoryLines(d, domain, lastDomain, topic, lastTopic);
    assert tb == [tb[0]] + mlines;
    assert tb[1 + k] == mlines[k];
    assert tb[1 + k..1 + k + 1] == [mlines[k]];
    assert SliceAt(tb, [mlines[k]], 1 + k);
  }

  /** Every listed memory has its own line, below its topic's branch. */
  lemma TreeShowsMemory(d: Disk, i: nat, j: nat, k: nat)
    requires i < |ListDomains(d)|
    requires j < |ListTopics(d, ListDomains(d)[i])|
    requires k < |ListMemories(d, ListDomains(d)[i], ListTopics(d, ListDomains(d)[i])[j])|
    ensures var ds := ListDomains(d);
      var ts := ListTopics(d, ds[i]);
      var ms := ListMemories(d, ds[i], ts[j]);
      Contains(TreeLines(d), [MemoryLine(i == |ds| - 1, j == |ts| - 1, k == |ms| - 1, ms[k])])
  {
    var ds := ListDomains(d);
    var ts := ListTopics(d, ds[i]);
    var tb := TopicBlocks(d, ds[i], i == |ds| - 1)[j];
    var ms := ListMemories(d, ds[i], ts[j]);
    var line := MemoryLine(i == |ds| - 1, j == |ts| - 1, k == |ms| - 1, ms[k]);
    TopicBlockInTree(d, i, j);
    assert tb == TopicBlock(d, ds[i], i == |ds| - 1, ts[j], j == |ts| - 1);
    MemoryLineInBlock(d, ds[i], i == |ds| - 1, ts[j], j == |ts| - 1, k);
    ContainsTransitive(TreeLines(d), tb, [line]);
  }

  /** The header is the first line, and every domain's block comes after it. */
  lemma TreeHeaderFirst(d: Disk, i: nat)
    requires i < |ListDomains(d)|
    ensures TreeLines(d)[0] == "context_tree/"
    ensures Before(TreeLines(d), ["context_tree/"], DomainBlocks(d)[i])
  {
    FlattenContainsPart(DomainBlocks(d), i);
    HeadBefore(["context_tree/"], Flatten(DomainBlocks(d)), DomainBlocks(d)[i]);
  }

  /**
   * Domains are drawn in listing order: each block opens with its domain's
   * line, and the block of the lesser of two listed domains comes first.
   */
  lemma TreeDomainsInOrder(d: Disk, i: nat, j: nat)
    requires i < j < |ListDomains(d)|
    ensures var ds := ListDomains(d);
      && Less(ds[i], ds[j])
      && DomainBlocks(d)[i][0] == DomainLine(false, ds[i])
      && DomainBlocks(d)[j][0] == DomainLine(j == |ds| - 1, ds[j])
      && Before(TreeLines(d), DomainBlocks(d)[i], DomainBlocks(d)[j])
  {
    var blocks := DomainBlocks(d);
    ListDomainsSpec(d);
    FlattenBefore(blocks, i, j);
    BeforeInContext(Flatten(blocks), blocks[i], blocks[j], ["context_tree/"], []);
    assert ["context_tree/"] + Flatten(blocks) + [] == TreeLines(d);
  }

  /** A topic's block comes after its domain's line. */
  lemma TreeTopicUnderDomain(d: Disk, i: nat, j: nat)
    requires i < |ListDomains(d)|
    requires j < |ListTopics(d, ListDomains(d)[i])|
    ensures var ds := ListDomains(d);
      var ts := ListTopics(d, ds[i]);
      var tb := TopicBlocks(d, ds[i], i == |ds| - 1)[j];
      && tb[0] == TopicLine(i == |ds| - 1, j == |ts| - 1, ts[j])
      && Before(TreeLines(d), [DomainLine(i == |ds| - 1, ds[i])], tb)
  {
    var ds := ListDomains(d);
    var tblocks := TopicBlocks(d, ds[i], i == |ds| - 1);
    FlattenContainsPart(tblocks, j);
    HeadBefore([DomainLine(i == |ds| - 1, ds[i])], Flatten(tblocks), tblocks[j]);
    DomainBlockInTree(d, i);
    BeforeWithin(TreeLines(d), DomainBlocks(d)[i], [DomainLine(i == |ds| - 1, ds[i])], tblocks[j]);
  }

  /** Within a domain, the block of the lesser of two listed topics comes first. */
  lemma TreeTopicsInOrder(d: Disk, i: nat, j: nat, k: nat)
    requires i < |ListDomains(d)|
    requires j < k < |ListTopics(d, ListDomains(d)[i])|
    ensures var ds := ListDomains(d);
      var ts := ListTopics(d, ds[i]);
      var tblocks := TopicBlocks(d, ds[i], i == |ds| - 1);
      && Less(ts[j], ts[k])
      && Before(TreeLines(d), tblocks[j], tblocks[k])
  {
    var ds := ListDomains(d);
    var tblocks := TopicBlocks(d, ds[i], i == |ds| - 1);
    var db := DomainBlocks(d)[i];
    ListTopicsSpec(d, ds[i]);
    FlattenBefore(tblocks, j, k);
    BeforeInContext(Flatten(tblocks), tblocks[j], tblocks[k], [db[0]], []);
    assert [db[0]] + Flatten(tblocks) + [] == db;
    DomainBlockInTree(d, i);
    BeforeWithin(TreeLines(d), db, tblocks[j], tblocks[k]);
  }

  /**
   * Within a topic, memory lines follow the topic's line, and the line of
   * the lesser of two listed memories comes first.
   */
  lemma TreeMemoriesInOrder(d: Disk, i: nat, j: nat, k: nat, l: nat)
    requires i < |ListDomains(d)|
    requires j < |ListTopics(d, ListDomains(d)[i])|
    requires k < l < |ListMemories(d, ListDomains(d)[i], ListTopics(d, ListDomains(d)[i])[j])|
    ensures var ds := ListDomains(d);
      var ts := ListTopics(d, ds[i]);
      var ms := ListMemories(d, ds[i], ts[j]);
      var ld, lt := i == |ds| - 1, j == |ts| - 1;
      && Less(ms[k], ms[l])
      && Before(TreeLines(d), [TopicLine(ld, lt, ts[j])], [MemoryLine(ld, lt, false, ms[k])])
      && Before(TreeLines(d), [MemoryLine(ld, lt, false, ms[k])], [MemoryLine(ld, lt, l == |ms| - 1, ms[l])])
  {
    var ds := ListDomains(d);
    var ts := ListTopics(d, ds[i]);
    var ms := ListMemories(d, ds[i], ts[j]);
    var ld, lt := i == |ds| - 1, j == |ts| - 1;
    var tb := TopicBlock(d, ds[i], ld, ts[j], lt);
    ListMemoriesSpec(d, ds[i], ts[j]);
    MemoryLinesAt(d, ds[i], ld, ts[j], lt, k);
    MemoryLinesAt(d, ds[i], ld, ts[j], lt, l);
    assert SliceAt(tb, [TopicLine(ld, lt, ts[j])], 0);
    assert Before(tb, [TopicLine(ld, lt, ts[j])], [tb[1 + k]]);
    assert Before(tb, [tb[1 + k]], [tb[1 + l]]);
    TopicBlockInTree(d, i, j);
    assert TopicBlocks(d, ds[i], ld)[j] == tb;
    BeforeWithin(TreeLines(d), tb, [TopicLine(ld, lt, ts[j])], [tb[1 + k]]);
    BeforeWithin(TreeLines(d), tb, [tb[1 + k]], [tb[1 + l]]);
  }

  /** Line `1 + k` of a topic's block is its `k`-th memory's line, a one-line slice. */
  lemma MemoryLinesAt(d: Disk, domain: string, lastDomain: bool, topic: string, lastTopic: bool, k: nat)
    requires k < |ListMemories(d, domain, topic)|
    ensures var ms := ListMemories(d, domain, topic);
      var tb := TopicBlock(d, domain, lastDomain, topic, lastTopic);
      && tb[1 + k] == MemoryLine(lastDomain, lastTopic, k == |ms| - 1, ms[k])
      && SliceAt(tb, [tb[1 + k]], 1 + k)
  {
    var tb := TopicBlock(d, domain, lastDomain, topic, lastTopic);
    assert tb[1 + k..1 + k + 1] == [tb[1 + k]];
  }
}
