# github-dependency-crawl: the dependency-graph builder of index.js

A Dafny model of how `index.js` of github-dependency-crawl turns a list of GitHub API
issue objects into a dependency graph, an adjacency map
`OWNER/REPO/NUM -> [OWNER/REPO/NUM, ...]`:

- `extractDependencyUrls` (module `Extraction`) splits an issue body on `\r\n` and keeps
  the single URL of every line that starts with `Depends on http`;
- `dependencyUrlToCanonicalName` (module `Canonical`) turns a web issue URL
  (`/OWNER/REPO/issues/NUM`) or an API issue URL (`/repos/OWNER/REPO/issues/NUM`) into
  `OWNER/REPO/NUM`, and anything else into `null` (`None`);
- `filterMap` (module `FilterMapping`) maps, then keeps the truthy results;
- `issuesToDependencyGraph` (module `IssueGraph`) names every issue, canonicalises its
  dependencies, drops issues without dependencies and folds the rest into one map with
  a loop, a later duplicate name overwriting an earlier one;
- `flatMerge` (module `Merging`) is a method on a `Graph` object that writes every entry
  of `b` into `a` in place and returns `a`.

`String.prototype.split` with a string separator is modelled in module `Strings`, with
its round trip through `join` proved. The two foreign calls, `match` of the url-regexp
package and Node's `url.parse`, are fields of a `UrlLibrary` value passed to every
operation; nothing is assumed about what they return beyond their types. `url.parse`
is reduced to the two fields the code reads: whether `protocol` is truthy, and `path`
(which includes any query string, so a query string without `/` ends up in the issue
number, and one with `/` changes the number of components and gives `null`).

JavaScript truthiness is modelled where the code relies on it: the line callback returns
a URL or `false`, and `filterMap` also drops an empty-string URL; `parsed.path` must be
present and non-empty; the issue callback's one-key object is always truthy and `null`
is not.

The model follows what index.js does, also where that differs from what a recursive
crawler would be expected to do:

- a dependency URL that fails to canonicalise is not dropped: `.map` at index.js:59
  leaves a `null` entry in the dependency list (`IssueGraph.CanonicalNames`,
  `IssueGraph.LastIssueWins`);
- an issue whose own URL fails to canonicalise is not dropped: its name `null` becomes
  the object key `"null"` (`IssueGraph.NullNameKey`);
- an issue without dependencies gets no key at all, whereas the recursive crawl that
  test/basic.js expects would list a fetched dependency with an empty list
  (`IssueGraph.GraphKeys`, `IssueGraph.OneDependency`);
- path segments are not checked to be non-empty, and the API form does not check that
  the first component is empty (`Canonical.EmptySegmentsAccepted`,
  `Canonical.ApiFormName`);
- `Depends on #123` shorthand, the recursive crawl, redirect rewriting and organisation
  listing are not in this code (the shorthand is only a TODO comment at index.js:76).

## Model

| member | source | states |
|---|---|---|
| Strings.Split | index.js:82 | `split` with a string separator yields at least one piece (`"".split(sep)` is `[""]`) |
| Strings.JoinSplit | index.js:82 | joining the pieces with the separator gives back the original string: splitting loses nothing |
| Strings.SplitPiecesFree | index.js:82 | no piece contains the separator: every occurrence was cut |
| Strings.SplitJoin | index.js:102 | for a one-character separator such as `/`, splitting parts that do not contain it recovers exactly those parts |
| FilterMapping.FilterMap | index.js:116-124 | the result is no longer than the input and every kept value is truthy |
| FilterMapping.FilterMapSelects | index.js:116-124 | the result is exactly the truthy images of the input, in input order: the k-th value is the image of the k-th selected element, selected indices strictly increase, and an element is selected if and only if its image is truthy |
| FilterMapping.FilterMapAppend | index.js:116-124 | filtering a concatenation is the concatenation of the filtered parts |
| Extraction.Lines | index.js:82 | the body splits into at least one line, and the lines joined with `\r\n` are the body |
| Extraction.LineDependency | index.js:83-91 | a line yields a URL if and only if it starts with `Depends on http` and the matcher found exactly one URL on it, and then it is that URL |
| Extraction.LineCallback | index.js:82-92 | the callback given to `filterMap` is `LineDependency` for that matcher on every line; which lines it keeps is stated by `ExtractedUrlsFollowLines` |
| Extraction.IsTruthyUrl | index.js:121-123 | a callback result is kept if and only if it is neither `false` nor the empty string |
| Extraction.ExtractDependencyUrls | index.js:77-93 | at most one URL per `\r\n`-separated line, and every URL is non-empty and is the only URL the matcher found on some line starting with `Depends on http` |
| Extraction.ExtractedUrlsFollowLines | index.js:82-92 | the URLs come from distinct lines in body order, and a line contributes if and only if it starts with `Depends on http` and the matcher found exactly one non-empty URL on it |
| Extraction.SingleLineBody | index.js:82-92 | a body without a line break yields its one URL when it declares one, and nothing when it does not start with the prefix or the matcher does not find exactly one non-empty URL |
| Canonical.CanonicalName | index.js:95-114 | a name is returned only when the parsed URL has a truthy protocol and a non-empty path; otherwise `null` |
| Canonical.Usable | index.js:101 | the guard holds if and only if the protocol is truthy and the path is present and not `""` |
| Canonical.WebFormName | index.js:102-105 | a path `/OWNER/REPO/issues/NUM` (segments without `/`) gives `OWNER/REPO/NUM` |
| Canonical.ApiFormName | index.js:107-110 | a path `LEAD/repos/OWNER/REPO/issues/NUM` gives `OWNER/REPO/NUM` whatever the first component LEAD is (segments without `/`) |
| Canonical.CanonicalNameShapes | index.js:100-113 | a name is returned if and only if protocol and path are present and the `/`-split path has 5 components with `""` first and `issues` fourth, or 6 components with `repos` second and `issues` fifth |
| Canonical.CanonicalNameParts | index.js:104-110 | every name splits on `/` into exactly three parts, so it is never the string `"null"` |
| Canonical.EmptySegmentsAccepted | index.js:104-105 | empty owner and number segments are accepted: `//x/issues/` gives `/x/` |
| IssueGraph.KeyOf | index.js:62-63 | a name used as a key is itself, and `null` becomes the key `"null"` |
| IssueGraph.CanonicalNames | index.js:59 | the dependency list has one entry per extracted URL, in order, each that URL's canonical name or `null`; nothing is filtered out |
| IssueGraph.IssueEntry | index.js:59-64 | an issue yields a one-key object if and only if it has a dependency URL, keyed by its name and holding its canonicalised list |
| IssueGraph.EntryCallback | index.js:58-65 | the callback given to `filterMap` is `IssueEntry` on every issue with a body; which issues it keeps is stated by `EntriesFromIssues` |
| IssueGraph.Entries | index.js:58-65 | at most one object per issue, each holding a non-empty list; `EntriesFromIssues` states exactly which |
| IssueGraph.GraphOf | index.js:69-73 | the fold has at most one key per entry; `GraphOfKeys`, `GraphOfValues` and `GraphOfLastWins` state its keys and values |
| IssueGraph.DependencyGraph | index.js:49-74 | every key maps to a non-empty list and there is at most one key per issue; `GraphKeys` and `LastIssueWins` state the keys and values |
| IssueGraph.IssuesToDependencyGraph | index.js:49-74 | the loop over the kept one-key objects builds exactly the left fold of writing each entry into an empty accumulator |
| IssueGraph.GraphOfKeys | index.js:69-73 | the fold's keys are exactly the entries' names |
| IssueGraph.GraphOfValues | index.js:69-73 | every value of the fold is the list of some entry with that name |
| IssueGraph.GraphOfLastWins | index.js:69-73 | an entry whose name no later entry shares keeps its list in the fold |
| IssueGraph.EntriesFromIssues | index.js:58-65 | the kept objects are the issues with at least one dependency URL, in issue order, each keyed by its (possibly `"null"`) name and holding its canonicalised list |
| IssueGraph.GraphKeys | index.js:58-73 | a key is in the graph if and only if some issue with at least one dependency URL has that key; an issue with none contributes no key |
| IssueGraph.LastIssueWins | index.js:59-73 | for duplicate names the last issue with dependencies wins, and its value is the unfiltered canonicalisation of its URLs |
| IssueGraph.NullNameKey | index.js:60-63 | the key `"null"` is present if and only if some issue with dependencies has a URL that does not canonicalise |
| IssueGraph.SingleIssue | index.js:58-73 | one issue gives a single key mapped to its list when it has dependencies, and an empty graph otherwise |
| IssueGraph.OneDependency | index.js:58-73 | an issue whose one-line body declares one web issue link gives a graph with exactly one key, its own name, mapped to that one dependency |
| Merging.Merged | index.js:126-134 | the keys are those of `a` and `b`; `b`'s value wins on shared keys; keys only in `a` keep `a`'s value |
| Merging.MergeIdempotent | index.js:126-134 | merging the same `b` twice equals merging it once |
| Merging.MergeIntoEmpty | index.js:43 | merging into an empty object copies `b` |
| Merging.Graph.constructor | index.js:16 | a graph object holds exactly the map it is created with |
| Merging.Graph.FlatMerge | index.js:126-134 | `a` becomes the right-biased union of old `a` and old `b`, `a` itself is returned, and `b` is unchanged (also when `b` is `a`) |
| Merging.Crawl | index.js:43-46 | the graph handed to the callback is a fresh object holding exactly the dependency graph of the issues |

## Left out

- The exported function's input: reading the file `random-ideas` with `fs.readFileSync`
  and `JSON.parse` (index.js:18) are I/O and decoding of external data; `Crawl` takes
  the already parsed issue list, and returns the graph instead of calling `cb`.
- The commented-out HTTP request code (index.js:20-41) does nothing and is not modelled.
- `match` of url-regexp and `url.parse` are foreign calls: they are parameters
  (`UrlLibrary`) with no assumed behaviour.
- An absent issue `body` makes `split` throw (index.js:82); the model requires every
  body to be present (`BodiesPresent`) rather than inventing a result. The `url` field
  is always present in the model.
- Property names are not modelled as JavaScript objects do (insertion order, the special
  key `__proto__`): every key written is a canonical name, which always contains `/`, or
  `"null"`, so no special key can arise; `FlatMerge` takes `b`'s keys in any order,
  which cannot matter because the keys are distinct.
- Strings are sequences of Dafny characters, not UTF-16 code units.
- test/basic.js drives an options-based recursive API (`repoToGitHubIssues`,
  `issueToGitHubIssue`) that index.js does not implement; ex.js only prints. Neither is
  modelled. The recursive crawl, redirect rewriting, `#123` shorthand, organisation
  listing, pagination and authentication have no code in index.js.
