/** `issuesToDependencyGraph` of index.js: a list of GitHub issues becomes an adjacency
    map `OWNER/REPO/NUM -> [OWNER/REPO/NUM or null, ...]`. */
module IssueGraph {
  import opened Wrappers
  import opened FilterMapping
  import opened Libraries
  import opened Extraction
  import opened Canonical

  /** The two fields of a GitHub API issue that the source reads. */
  datatype Issue = Issue(url: string, body: Option<string>)

  /** The one-key object `{ name: deps }` built for an issue that declares dependencies. */
  datatype Entry = Entry(name: string, deps: seq<Option<string>>)

  type DependencyMap = map<string, seq<Option<string>>>

  /** `string.split` on an absent body throws, so every body must be present. */
  predicate BodiesPresent(issues: seq<Issue>)
  {
    forall issue :: issue in issues ==> issue.body.Some?
  }

  /** Using a name as an object key: `null` becomes the key "null". */
  function KeyOf(name: Option<string>): (key: string)
    ensures name.Some? ==> key == name.value
    ensures name.None? ==> key == "null"
  {
    match name
    case Some(n) => n
    case None => "null"
  }

  /** `urls.map(dependencyUrlToCanonicalName)`: one name per URL, failures kept as `null`. */
  function CanonicalNames(lib: UrlLibrary, urls: seq<string>): (names: seq<Option<string>>)
    ensures |names| == |urls|
    ensures forall k :: 0 <= k < |urls| ==> names[k] == CanonicalName(lib, urls[k])
  {
    if urls == [] then [] else [CanonicalName(lib, urls[0])] + CanonicalNames(lib, urls[1..])
  }

  function IssueDependencies(lib: UrlLibrary, issue: Issue): seq<Option<string>>
    requires issue.body.Some?
  {
    CanonicalNames(lib, ExtractDependencyUrls(lib, issue.body.value))
  }

  function IssueKey(lib: UrlLibrary, issue: Issue): string
  {
    KeyOf(CanonicalName(lib, issue.url))
  }

  predicate HasDependencies(lib: UrlLibrary, issue: Issue)
    requires issue.body.Some?
  {
    |ExtractDependencyUrls(lib, issue.body.value)| > 0
  }

  /** The per-issue callback: the one-key object, or `null` when the issue has no
      dependency URLs. */
  function IssueEntry(lib: UrlLibrary, issue: Issue): (entry: Option<Entry>)
    requires issue.body.Some?
    ensures entry.Some? <==> HasDependencies(lib, issue)
    ensures entry.Some? ==> entry.value == Entry(IssueKey(lib, issue), IssueDependencies(lib, issue))
  {
    var deps := IssueDependencies(lib, issue);
    var name := CanonicalName(lib, issue.url);
    if |deps| > 0 then Some(Entry(KeyOf(name), deps)) else None
  }

  /** The callback handed to `filterMap`: defined on issues with a body. */
  function EntryCallback(lib: UrlLibrary): (callback: Issue --> Option<Entry>)
    ensures forall issue: Issue :: issue.body.Some? ==> callback.requires(issue) && callback(issue) == IssueEntry(lib, issue)
  {
    (issue: Issue) requires issue.body.Some? => IssueEntry(lib, issue)
  }

  /** Objects are truthy and `null` is not. */
  predicate IsEntry(v: Option<Entry>)
  {
    v.Some?
  }

  /** The array that `filterMap` returns: the one-key objects, in issue order. */
  function Entries(lib: UrlLibrary, issues: seq<Issue>): (entries: seq<Entry>)
    requires BodiesPresent(issues)
    ensures |entries| <= |issues|
    ensures forall k :: 0 <= k < |entries| ==> |entries[k].deps| > 0
  {
    var kept := FilterMap(issues, EntryCallback(lib), IsEntry);
    FilterMapSelects(issues, EntryCallback(lib), IsEntry);
    seq(|kept|, k requires 0 <= k < |kept| => kept[k].value)
  }

  /** The `reduce` step: write each entry into the accumulator, left to right. */
  function GraphOf(entries: seq<Entry>): (graph: DependencyMap)
    ensures |graph| <= |entries|
  {
    if entries == [] then map[]
    else
      var last := entries[|entries| - 1];
      GraphOf(entries[..|entries| - 1])[last.name := last.deps]
  }

  /** Every key maps to a non-empty list, and there is at most one key per issue. */
  function DependencyGraph(lib: UrlLibrary, issues: seq<Issue>): (graph: DependencyMap)
    requires BodiesPresent(issues)
    ensures |graph| <= |issues|
    ensures forall k :: k in graph ==> |graph[k]| > 0
  {
    var entries := Entries(lib, issues);
    GraphOfValues(entries);
    GraphOf(entries)
  }

  method IssuesToDependencyGraph(lib: UrlLibrary, issues: seq<Issue>) returns (graph: DependencyMap)
    requires BodiesPresent(issues)
    ensures graph == DependencyGraph(lib, issues)
  {
    var kept := FilterMap(issues, EntryCallback(lib), IsEntry);
    ghost var entries := Entries(lib, issues);
    graph := map[];
    var i := 0;
    while i < |kept|
      invariant 0 <= i <= |kept|
      invariant graph == GraphOf(entries[..i])
    {
      var entry := kept[i].value;
      graph := graph[entry.name := entry.deps];
      i := i + 1;
      assert entries[..i][..i - 1] == entries[..i - 1];
    }
    assert entries[..|kept|] == entries;
  }

  /** The keys of the fold are exactly the entries' names. */
  lemma {:induction false} GraphOfKeys(entries: seq<Entry>)
    ensures forall k :: k in GraphOf(entries) <==> exists i :: 0 <= i < |entries| && entries[i].name == k
  {
    if entries != [] {
      var front := entries[..|entries| - 1];
      GraphOfKeys(front);
      forall i | 0 <= i < |front| ensures front[i] == entries[i] {}
    }
  }

  /** Every value of the fold is the dependency list of an entry with that name. */
  lemma {:induction false} GraphOfValues(entries: seq<Entry>)
    ensures forall k :: k in GraphOf(entries) ==>
      exists i :: 0 <= i < |entries| && entries[i].name == k && GraphOf(entries)[k] == entries[i].deps
  {
    if entries != [] {
      var front := entries[..|entries| - 1];
      GraphOfValues(front);
      forall i | 0 <= i < |front| ensures front[i] == entries[i] {}
    }
  }

  /** A later entry overwrites an earlier one with the same name: an entry that no later
      entry shares its name with holds its place in the fold. */
  lemma {:induction false} GraphOfLastWins(entries: seq<Entry>)
    ensures forall i :: 0 <= i < |entries| && (forall j :: i < j < |entries| ==> entries[j].name != entries[i].name) ==>
      entries[i].name in GraphOf(entries) && GraphOf(entries)[entries[i].name] == entries[i].deps
  {
    if entries != [] {
      var front := entries[..|entries| - 1];
      GraphOfLastWins(front);
      forall i | 0 <= i < |front| ensures front[i] == entries[i] {}
    }
  }

  /** The entries are the issues that have dependencies, in issue order, each keyed by
      its name and carrying its canonicalised dependency list. */
  lemma EntriesFromIssues(lib: UrlLibrary, issues: seq<Issue>)
    requires BodiesPresent(issues)
    ensures var idx := KeptIndices(issues, EntryCallback(lib), IsEntry);
      && |Entries(lib, issues)| == |idx|
      && (forall k :: 0 <= k < |idx| ==>
            idx[k] < |issues| &&
            Entries(lib, issues)[k] == Entry(IssueKey(lib, issues[idx[k]]), IssueDependencies(lib, issues[idx[k]])))
      && (forall k, l :: 0 <= k < l < |idx| ==> idx[k] < idx[l])
      && (forall i :: 0 <= i < |issues| ==> (i in idx <==> HasDependencies(lib, issues[i])))
  {
    var idx := KeptIndices(issues, EntryCallback(lib), IsEntry);
    var kept := FilterMap(issues, EntryCallback(lib), IsEntry);
    FilterMapSelects(issues, EntryCallback(lib), IsEntry);
    forall k | 0 <= k < |idx|
      ensures Entries(lib, issues)[k] == Entry(IssueKey(lib, issues[idx[k]]), IssueDependencies(lib, issues[idx[k]]))
    {
      assert kept[k] == IssueEntry(lib, issues[idx[k]]);
    }
    forall i | 0 <= i < |issues| ensures (i in idx <==> HasDependencies(lib, issues[i])) {
      assert EntryCallback(lib)(issues[i]) == IssueEntry(lib, issues[i]);
    }
  }

  /** Only issues with dependencies appear: a key is present exactly when some issue with
      at least one dependency URL has that key. */
  lemma GraphKeys(lib: UrlLibrary, issues: seq<Issue>)
    requires BodiesPresent(issues)
    ensures forall k :: k in DependencyGraph(lib, issues) <==>
      exists i :: 0 <= i < |issues| && HasDependencies(lib, issues[i]) && IssueKey(lib, issues[i]) == k
  {
    var entries := Entries(lib, issues);
    var idx := KeptIndices(issues, EntryCallback(lib), IsEntry);
    EntriesFromIssues(lib, issues);
    GraphOfKeys(entries);
    forall k | k in DependencyGraph(lib, issues)
      ensures exists i :: 0 <= i < |issues| && HasDependencies(lib, issues[i]) && IssueKey(lib, issues[i]) == k
    {
      var m :| 0 <= m < |entries| && entries[m].name == k;
      assert idx[m] in idx;
    }
    forall i | 0 <= i < |issues| && HasDependencies(lib, issues[i])
      ensures IssueKey(lib, issues[i]) in DependencyGraph(lib, issues)
    {
      assert i in idx;
      var m :| 0 <= m < |idx| && idx[m] == i;
      assert entries[m].name == IssueKey(lib, issues[i]);
    }
  }

  /** Duplicate names, last wins: an issue with dependencies that no later issue with
      dependencies shares its key with contributes its own list, unfiltered: one entry
      per extracted URL, in order, `null` where the URL does not canonicalise. */
  lemma LastIssueWins(lib: UrlLibrary, issues: seq<Issue>, i: nat)
    requires BodiesPresent(issues)
    requires i < |issues| && HasDependencies(lib, issues[i])
    requires forall j :: i < j < |issues| && HasDependencies(lib, issues[j]) ==> IssueKey(lib, issues[j]) != IssueKey(lib, issues[i])
    ensures IssueKey(lib, issues[i]) in DependencyGraph(lib, issues)
    ensures DependencyGraph(lib, issues)[IssueKey(lib, issues[i])] ==
      CanonicalNames(lib, ExtractDependencyUrls(lib, issues[i].body.value))
  {
    var entries := Entries(lib, issues);
    var idx := KeptIndices(issues, EntryCallback(lib), IsEntry);
    var key := IssueKey(lib, issues[i]);
    EntriesFromIssues(lib, issues);
    assert i in idx;
    var m :| 0 <= m < |idx| && idx[m] == i;
    assert entries[m] == Entry(key, IssueDependencies(lib, issues[i]));
    forall l | m < l < |entries| ensures entries[l].name != key {
      var j := idx[l];
      assert j in idx && i < j < |issues|;
      assert entries[l].name == IssueKey(lib, issues[j]);
    }
    GraphOfLastWins(entries);
  }

  /** A self-name that does not canonicalise is still a key, "null", and only such an
      issue produces that key (canonical names always hold a `/`). */
  lemma NullNameKey(lib: UrlLibrary, issues: seq<Issue>)
    requires BodiesPresent(issues)
    ensures "null" in DependencyGraph(lib, issues) <==>
      exists i :: 0 <= i < |issues| && HasDependencies(lib, issues[i]) && CanonicalName(lib, issues[i].url).None?
  {
    GraphKeys(lib, issues);
    forall i | 0 <= i < |issues| && CanonicalName(lib, issues[i].url).Some?
      ensures IssueKey(lib, issues[i]) != "null"
    {
      CanonicalNameParts(lib, issues[i].url);
    }
  }

  /** The result for one issue: a single key when it declares dependencies, none otherwise. */
  lemma SingleIssue(lib: UrlLibrary, issue: Issue)
    requires issue.body.Some?
    ensures DependencyGraph(lib, [issue]) ==
      if HasDependencies(lib, issue) then map[IssueKey(lib, issue) := IssueDependencies(lib, issue)] else map[]
  {
    var kept := FilterMap([issue], EntryCallback(lib), IsEntry);
    assert [issue][1..] == [];
    assert EntryCallback(lib)(issue) == IssueEntry(lib, issue);
    var entries := Entries(lib, [issue]);
    if HasDependencies(lib, issue) {
      var entry := Entry(IssueKey(lib, issue), IssueDependencies(lib, issue));
      assert kept == [Some(entry)];
      assert entries == [entry];
      assert entries[..0] == [];
      assert GraphOf(entries) == GraphOf([])[entry.name := entry.deps];
    } else {
      assert kept == [];
      assert entries == [];
    }
  }

  /** An issue whose body is one line declaring one web-form issue link gives exactly one
      key, its own name, mapped to that one dependency; the dependency gets no key of
      its own (there is no recursive crawl). */
  lemma OneDependency(lib: UrlLibrary, issue: Issue, dep: string,
                      owner: string, repo: string, num: string,
                      depOwner: string, depRepo: string, depNum: string)
    requires issue.body.Some? && '\r' !in issue.body.value && DependsPrefix <= issue.body.value
    requires lib.urlsIn(issue.body.value) == [dep] && dep != ""
    requires lib.parse(issue.url) == ParsedUrl(true, Some("/" + owner + "/" + repo + "/issues/" + num))
    requires lib.parse(dep) == ParsedUrl(true, Some("/" + depOwner + "/" + depRepo + "/issues/" + depNum))
    requires '/' !in owner && '/' !in repo && '/' !in num
    requires '/' !in depOwner && '/' !in depRepo && '/' !in depNum
    ensures DependencyGraph(lib, [issue]) ==
      map[owner + "/" + repo + "/" + num := [Some(depOwner + "/" + depRepo + "/" + depNum)]]
  {
    SingleLineBody(lib, issue.body.value);
    WebFormName(lib, issue.url, owner, repo, num);
    WebFormName(lib, dep, depOwner, depRepo, depNum);
    assert IssueDependencies(lib, issue) == [Some(depOwner + "/" + depRepo + "/" + depNum)];
    SingleIssue(lib, issue);
  }
}
