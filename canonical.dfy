/** `dependencyUrlToCanonicalName` of index.js: a GitHub issue URL, in its web form or its
    REST API form, becomes `OWNER/REPO/NUM`; anything else becomes `null` (here `None`). */
module Canonical {
  import opened Wrappers
  import opened Strings
  import opened Libraries

  const Slash: string := "/"

  /** `parsed.protocol && parsed.path`: both present and truthy (a `""` path is falsy). */
  function Usable(parsed: ParsedUrl): (usable: bool)
    ensures usable <==> parsed.hasProtocol && parsed.path != None && parsed.path != Some("")
  {
    parsed.hasProtocol && parsed.path.Some? && parsed.path.value != ""
  }

  function CanonicalName(lib: UrlLibrary, url: string): (name: Option<string>)
    ensures name.Some? ==> Usable(lib.parse(url))
  {
    var parsed := lib.parse(url);
    if Usable(parsed) then
      var c := Split(parsed.path.value, Slash);
      // https://www.github.com/OWNER/REPO/issues/NUM
      if |c| == 5 && c[0] == "" && c[3] == "issues" then Some(c[1] + Slash + c[2] + Slash + c[4])
      // https://api.github.com/repos/OWNER/REPO/issues/NUM
      else if |c| == 6 && c[1] == "repos" && c[4] == "issues" then Some(c[2] + Slash + c[3] + Slash + c[5])
      else None
    else None
  }

  /** A web-form path is its five components joined by `/`. */
  lemma WebPathJoin(owner: string, repo: string, num: string)
    ensures Join(["", owner, repo, "issues", num], Slash) == "/" + owner + "/" + repo + "/issues/" + num
  {
    var parts := ["", owner, repo, "issues", num];
    JoinPath(parts[1..], Slash);
    JoinCons("", parts[1..], Slash);
    assert [""] + parts[1..] == parts;
  }

  /** An API-form path is its six components joined by `/`. */
  lemma ApiPathJoin(lead: string, owner: string, repo: string, num: string)
    ensures Join([lead, "repos", owner, repo, "issues", num], Slash) == lead + "/repos/" + owner + "/" + repo + "/issues/" + num
  {
    var parts := [lead, "repos", owner, repo, "issues", num];
    JoinPath(parts[2..], Slash);
    JoinCons("repos", parts[2..], Slash);
    assert ["repos"] + parts[2..] == parts[1..];
    JoinCons(lead, parts[1..], Slash);
    assert [lead] + parts[1..] == parts;
  }

  /** A web-form path splits into its five components. */
  lemma WebPathComponents(owner: string, repo: string, num: string)
    requires '/' !in owner && '/' !in repo && '/' !in num
    ensures Split("/" + owner + "/" + repo + "/issues/" + num, Slash) == ["", owner, repo, "issues", num]
  {
    WebPathJoin(owner, repo, num);
    SplitJoin(["", owner, repo, "issues", num], Slash);
  }

  /** An API-form path splits into its six components. */
  lemma ApiPathComponents(lead: string, owner: string, repo: string, num: string)
    requires '/' !in lead && '/' !in owner && '/' !in repo && '/' !in num
    ensures Split(lead + "/repos/" + owner + "/" + repo + "/issues/" + num, Slash) == [lead, "repos", owner, repo, "issues", num]
  {
    ApiPathJoin(lead, owner, repo, num);
    SplitJoin([lead, "repos", owner, repo, "issues", num], Slash);
  }

  /** The web form: a path `/OWNER/REPO/issues/NUM` gives `OWNER/REPO/NUM`. Segments may be
      empty, and NUM is whatever follows, a query string included as long as it holds no `/`. */
  lemma WebFormName(lib: UrlLibrary, url: string, owner: string, repo: string, num: string)
    requires lib.parse(url) == ParsedUrl(true, Some("/" + owner + "/" + repo + "/issues/" + num))
    requires '/' !in owner && '/' !in repo && '/' !in num
    ensures CanonicalName(lib, url) == Some(owner + "/" + repo + "/" + num)
  {
    WebPathComponents(owner, repo, num);
  }

  /** The API form: a path `LEAD/repos/OWNER/REPO/issues/NUM` gives `OWNER/REPO/NUM`. The
      first component LEAD is not looked at; for a parsed URL it is normally empty. */
  lemma ApiFormName(lib: UrlLibrary, url: string, lead: string, owner: string, repo: string, num: string)
    requires lib.parse(url) == ParsedUrl(true, Some(lead + "/repos/" + owner + "/" + repo + "/issues/" + num))
    requires '/' !in lead && '/' !in owner && '/' !in repo && '/' !in num
    ensures CanonicalName(lib, url) == Some(owner + "/" + repo + "/" + num)
  {
    ApiPathComponents(lead, owner, repo, num);
  }

  /** Joining four parts with `/`. */
  lemma JoinPath(parts: seq<string>, sep: string)
    requires |parts| == 4
    ensures Join(parts, sep) == parts[0] + sep + parts[1] + sep + parts[2] + sep + parts[3]
  {
    assert Join(parts[3..], sep) == parts[3];
    JoinCons(parts[2], parts[3..], sep);
    assert [parts[2]] + parts[3..] == parts[2..];
    JoinCons(parts[1], parts[2..], sep);
    assert [parts[1]] + parts[2..] == parts[1..];
    JoinCons(parts[0], parts[1..], sep);
    assert [parts[0]] + parts[1..] == parts;
  }

  /** Joining three parts with `/`. */
  lemma JoinName(parts: seq<string>, sep: string)
    requires |parts| == 3
    ensures Join(parts, sep) == parts[0] + sep + parts[1] + sep + parts[2]
  {
    assert Join(parts[2..], sep) == parts[2];
    JoinCons(parts[1], parts[2..], sep);
    assert [parts[1]] + parts[2..] == parts[1..];
    JoinCons(parts[0], parts[1..], sep);
    assert [parts[0]] + parts[1..] == parts;
  }

  /** Which paths are accepted, both directions: a name exactly when the protocol and a
      non-empty path are present and the `/`-split path has one of the two shapes. */
  lemma CanonicalNameShapes(lib: UrlLibrary, url: string)
    ensures var parsed := lib.parse(url);
      CanonicalName(lib, url).Some? <==>
        Usable(parsed) &&
        var c := Split(parsed.path.value, Slash);
        (|c| == 5 && c[0] == "" && c[3] == "issues") || (|c| == 6 && c[1] == "repos" && c[4] == "issues")
  {
  }

  /** Every name is three `/`-free parts joined by `/`; in particular it is never the
      string "null". */
  lemma {:induction false} CanonicalNameParts(lib: UrlLibrary, url: string)
    requires CanonicalName(lib, url).Some?
    ensures |Split(CanonicalName(lib, url).value, Slash)| == 3
    ensures CanonicalName(lib, url).value != "null"
  {
    var path := lib.parse(url).path.value;
    var c := Split(path, Slash);
    SplitPiecesFree(path, Slash);
    forall k | 0 <= k < |c| ensures '/' !in c[k] {
      FreeOfChar(c[k], Slash);
    }
    var parts := if |c| == 5 && c[0] == "" && c[3] == "issues" then [c[1], c[2], c[4]] else [c[2], c[3], c[5]];
    JoinName(parts, Slash);
    SplitJoin(parts, Slash);
    SplitWithoutSep("null", Slash);
  }

  /** No check that the segments are non-empty: `//x/issues/` is accepted with an empty
      owner and number. */
  lemma EmptySegmentsAccepted(lib: UrlLibrary, url: string)
    requires lib.parse(url) == ParsedUrl(true, Some("//x/issues/"))
    ensures CanonicalName(lib, url) == Some("/x/")
  {
    WebPathComponents("", "x", "");
    assert "/" + "" + "/" + "x" + "/issues/" + "" == "//x/issues/";
    assert "" + "/" + "x" + "/" + "" == "/x/";
  }
}
