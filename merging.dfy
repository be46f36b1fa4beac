/** `flatMerge` of index.js, and the one line of the exported function that uses it. */
module Merging {
  import opened Wrappers
  import opened Libraries
  import opened IssueGraph

  /** Shallow right-biased union: every key of either map, `b`'s value where both have one. */
  function Merged(a: DependencyMap, b: DependencyMap): (r: DependencyMap)
    ensures r.Keys == a.Keys + b.Keys
    ensures forall k :: k in b ==> r[k] == b[k]
    ensures forall k :: k in a && k !in b ==> r[k] == a[k]
  {
    a + b
  }

  /** Merging the same map a second time changes nothing. */
  lemma MergeIdempotent(a: DependencyMap, b: DependencyMap)
    ensures Merged(Merged(a, b), b) == Merged(a, b)
  {
  }

  /** Merging into an empty object copies `b`. */
  lemma MergeIntoEmpty(b: DependencyMap)
    ensures Merged(map[], b) == b
  {
  }

  /** A JavaScript object used as a dependency graph, updated in place. */
  class Graph {
    var entries: DependencyMap

    constructor (initial: DependencyMap)
      ensures entries == initial
    {
      entries := initial;
    }

    /** Writes every entry of `b` into `a` and returns `a` itself. `b` may be `a`. */
    static method FlatMerge(a: Graph, b: Graph) returns (result: Graph)
      modifies a
      ensures result == a
      ensures a.entries == Merged(old(a.entries), old(b.entries))
      ensures b.entries == old(b.entries)
    {
      ghost var original := a.entries;
      ghost var source := b.entries;
      var keys := b.entries.Keys;
      result := a;
      while keys != {}
        invariant keys <= source.Keys
        invariant b.entries == source
        invariant result == a
        invariant a.entries.Keys == original.Keys + (source.Keys - keys)
        invariant forall k :: k in source && k !in keys ==> a.entries[k] == source[k]
        invariant forall k :: k in original && (k !in source || k in keys) ==> a.entries[k] == original[k]
        decreases keys
      {
        var key :| key in keys;
        result.entries := result.entries[key := b.entries[key]];
        keys := keys - {key};
      }
      assert a.entries == Merged(original, source);
    }
  }

  /** The exported function, without its file reading and JSON decoding: the parsed issue
      list is merged into an empty graph. */
  method Crawl(lib: UrlLibrary, issues: seq<Issue>) returns (graph: Graph)
    requires BodiesPresent(issues)
    ensures fresh(graph)
    ensures graph.entries == DependencyGraph(lib, issues)
  {
    var empty := new Graph(map[]);
    var fromIssues := IssuesToDependencyGraph(lib, issues);
    var other := new Graph(fromIssues);
    graph := Graph.FlatMerge(empty, other);
    MergeIntoEmpty(fromIssues);
  }
}
