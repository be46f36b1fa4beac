/** `extractDependencyUrls` of index.js: the dependency URLs declared in an issue body. */
module Extraction {
  import opened Wrappers
  import opened Strings
  import opened FilterMapping
  import opened Libraries

  /** The source assumes Windows line breaks. */
  const LineBreak: string := "\r\n"

  /** The pattern `/^Depends on http/`: a literal prefix of the line. */
  const DependsPrefix: string := "Depends on http"

  /** `string.split('\r\n')`: at least one line, and the lines rejoined are the body. */
  function Lines(body: string): (lines: seq<string>)
    ensures |lines| >= 1
    ensures Join(lines, LineBreak) == body
  {
    JoinSplit(body, LineBreak);
    Split(body, LineBreak)
  }

  /** The per-line callback: the line's only URL, or `false` (here `None`) when the line
      does not start with the prefix or the matcher finds zero or several URLs. */
  function LineDependency(lib: UrlLibrary, line: string): (url: Option<string>)
    ensures url.Some? <==> DependsPrefix <= line && |lib.urlsIn(line)| == 1
    ensures url.Some? ==> lib.urlsIn(line) == [url.value]
  {
    if DependsPrefix <= line && |lib.urlsIn(line)| == 1 then Some(lib.urlsIn(line)[0]) else None
  }

  /** The callback handed to `filterMap`, for a given URL matcher. */
  function LineCallback(lib: UrlLibrary): (callback: string -> Option<string>)
    ensures forall line :: callback(line) == LineDependency(lib, line)
  {
    line => LineDependency(lib, line)
  }

  /** JavaScript truthiness of the callback's result: `false` and `""` are falsy. */
  function IsTruthyUrl(v: Option<string>): (truthy: bool)
    ensures truthy <==> v != None && v != Some("")
  {
    v.Some? && v.value != ""
  }

  /** `line` declares exactly one dependency, and it is `url`. */
  predicate Declares(lib: UrlLibrary, line: string, url: string)
  {
    DependsPrefix <= line && lib.urlsIn(line) == [url] && url != ""
  }

  function ExtractDependencyUrls(lib: UrlLibrary, body: string): (urls: seq<string>)
    ensures |urls| <= |Lines(body)|
    ensures forall k :: 0 <= k < |urls| ==>
      exists i :: 0 <= i < |Lines(body)| && Declares(lib, Lines(body)[i], urls[k])
  {
    var kept := FilterMap(Lines(body), LineCallback(lib), IsTruthyUrl);
    FilterMapSelects(Lines(body), LineCallback(lib), IsTruthyUrl);
    seq(|kept|, k requires 0 <= k < |kept| => kept[k].value)
  }

  /** Which lines contribute, and in what order: the k-th URL comes from the k-th
      selected line, the selected lines are distinct and in body order, and a line is
      selected exactly when it starts with the prefix and the matcher found exactly one
      non-empty URL on it. */
  lemma ExtractedUrlsFollowLines(lib: UrlLibrary, body: string)
    ensures var idx := KeptIndices(Lines(body), LineCallback(lib), IsTruthyUrl);
      && |ExtractDependencyUrls(lib, body)| == |idx|
      && (forall k :: 0 <= k < |idx| ==>
            idx[k] < |Lines(body)| && Declares(lib, Lines(body)[idx[k]], ExtractDependencyUrls(lib, body)[k]))
      && (forall k, l :: 0 <= k < l < |idx| ==> idx[k] < idx[l])
      && (forall i :: 0 <= i < |Lines(body)| ==>
            (i in idx <==> DependsPrefix <= Lines(body)[i] && |lib.urlsIn(Lines(body)[i])| == 1
                           && lib.urlsIn(Lines(body)[i])[0] != ""))
  {
    var lines := Lines(body);
    var idx := KeptIndices(lines, LineCallback(lib), IsTruthyUrl);
    var kept := FilterMap(lines, LineCallback(lib), IsTruthyUrl);
    var urls := ExtractDependencyUrls(lib, body);
    FilterMapSelects(lines, LineCallback(lib), IsTruthyUrl);
    forall k | 0 <= k < |idx| ensures Declares(lib, lines[idx[k]], urls[k]) {
      assert kept[k] == LineDependency(lib, lines[idx[k]]);
    }
    forall i | 0 <= i < |lines|
      ensures i in idx <==> DependsPrefix <= lines[i] && |lib.urlsIn(lines[i])| == 1 && lib.urlsIn(lines[i])[0] != ""
    {
      assert LineCallback(lib)(lines[i]) == LineDependency(lib, lines[i]);
    }
  }

  /** A body with no line break is one line: it yields its URL when it declares one,
      and nothing otherwise, including when the only URL found is empty. */
  lemma SingleLineBody(lib: UrlLibrary, body: string)
    requires '\r' !in body
    ensures DependsPrefix <= body && |lib.urlsIn(body)| == 1 && lib.urlsIn(body)[0] != "" ==>
      ExtractDependencyUrls(lib, body) == lib.urlsIn(body)
    ensures !(DependsPrefix <= body) ==> ExtractDependencyUrls(lib, body) == []
    ensures |lib.urlsIn(body)| != 1 || lib.urlsIn(body)[0] == "" ==> ExtractDependencyUrls(lib, body) == []
  {
    SplitWithoutSep(body, LineBreak);
    assert Lines(body) == [body];
  }
}
