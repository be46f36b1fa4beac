/** `String.prototype.split` with a non-empty string separator: the string is cut at
    every leftmost, non-overlapping occurrence of the separator, and the separators are
    dropped. The result always has at least one piece (`"".split(sep)` is `[""]`). */
module Strings {

  /** `sep` occurs in `s` starting at index `i`. */
  predicate SepAt(s: string, sep: string, i: nat)
  {
    i + |sep| <= |s| && s[i..i + |sep|] == sep
  }

  /** `sep` occurs nowhere in `s`. */
  ghost predicate FreeOf(s: string, sep: string)
  {
    forall i: nat :: !SepAt(s, sep, i)
  }

  function Split(s: string, sep: string): (pieces: seq<string>)
    requires sep != []
    ensures |pieces| >= 1
    decreases |s|
  {
    if |s| < |sep| then [s]
    else if s[..|sep|] == sep then [""] + Split(s[|sep|..], sep)
    else
      var rest := Split(s[1..], sep);
      [[s[0]] + rest[0]] + rest[1..]
  }

  /** `Array.prototype.join`: the pieces with `sep` between neighbours. */
  function Join(pieces: seq<string>, sep: string): string
  {
    if |pieces| == 0 then ""
    else if |pieces| == 1 then pieces[0]
    else pieces[0] + sep + Join(pieces[1..], sep)
  }

  lemma JoinCons(head: string, rest: seq<string>, sep: string)
    requires |rest| >= 1
    ensures Join([head] + rest, sep) == head + sep + Join(rest, sep)
  {
    assert ([head] + rest)[1..] == rest;
  }

  /** The separator at the front is cut off as an empty first piece. */
  lemma SplitCut(s: string, sep: string)
    requires sep != [] && |sep| <= |s| && s[..|sep|] == sep
    ensures Split(s, sep) == [""] + Split(s[|sep|..], sep)
  {
  }

  /** A first character that does not start the separator joins the first piece of the rest. */
  lemma SplitExtend(s: string, sep: string)
    requires sep != [] && |sep| <= |s| && s[..|sep|] != sep
    ensures Split(s, sep) == [[s[0]] + Split(s[1..], sep)[0]] + Split(s[1..], sep)[1..]
  {
  }

  lemma JoinExtendHead(c: char, rest: seq<string>, sep: string)
    requires |rest| >= 1
    ensures Join([[c] + rest[0]] + rest[1..], sep) == [c] + Join(rest, sep)
  {
    if |rest| > 1 {
      JoinCons([c] + rest[0], rest[1..], sep);
      JoinCons(rest[0], rest[1..], sep);
      assert [rest[0]] + rest[1..] == rest;
    }
  }

  lemma JoinHeadPrefix(pieces: seq<string>, sep: string)
    requires |pieces| >= 1
    ensures pieces[0] <= Join(pieces, sep)
  {
    if |pieces| > 1 {
      JoinCons(pieces[0], pieces[1..], sep);
      assert [pieces[0]] + pieces[1..] == pieces;
    }
  }

  /** Splitting loses nothing: joining the pieces gives the string back. */
  lemma {:induction false} JoinSplit(s: string, sep: string)
    requires sep != []
    ensures Join(Split(s, sep), sep) == s
    decreases |s|
  {
    if |s| < |sep| {
    } else if s[..|sep|] == sep {
      SplitCut(s, sep);
      JoinSplit(s[|sep|..], sep);
      JoinCons("", Split(s[|sep|..], sep), sep);
      assert s == sep + s[|sep|..];
    } else {
      SplitExtend(s, sep);
      JoinSplit(s[1..], sep);
      JoinExtendHead(s[0], Split(s[1..], sep), sep);
      assert s == [s[0]] + s[1..];
    }
  }

  /** The first piece is a prefix of the string. */
  lemma FirstPiecePrefix(s: string, sep: string)
    requires sep != []
    ensures Split(s, sep)[0] <= s
  {
    JoinSplit(s, sep);
    JoinHeadPrefix(Split(s, sep), sep);
  }

  /** Putting a character that does not start an occurrence in front of a separator-free
      prefix of the rest keeps it separator-free. */
  lemma ExtendFree(s: string, q: string, sep: string)
    requires sep != [] && |sep| <= |s| && s[..|sep|] != sep
    requires q <= s[1..] && FreeOf(q, sep)
    ensures FreeOf([s[0]] + q, sep)
  {
    var p := [s[0]] + q;
    assert p <= s;
    forall i: nat ensures !SepAt(p, sep, i) {
      if i == 0 {
        if |sep| <= |p| {
          assert p[..|sep|] == s[..|sep|];
        }
      } else if SepAt(p, sep, i) {
        assert p[i..i + |sep|] == q[i - 1..i - 1 + |sep|];
        assert SepAt(q, sep, i - 1);
      }
    }
  }

  /** No piece contains the separator: every occurrence was cut. */
  lemma {:induction false} SplitPiecesFree(s: string, sep: string)
    requires sep != []
    ensures forall k :: 0 <= k < |Split(s, sep)| ==> FreeOf(Split(s, sep)[k], sep)
    decreases |s|
  {
    if |s| < |sep| {
      assert Split(s, sep) == [s];
      forall i: nat ensures !SepAt(s, sep, i) {}
    } else if s[..|sep|] == sep {
      SplitCut(s, sep);
      SplitPiecesFree(s[|sep|..], sep);
      forall i: nat ensures !SepAt("", sep, i) {}
    } else {
      var rest := Split(s[1..], sep);
      SplitExtend(s, sep);
      SplitPiecesFree(s[1..], sep);
      FirstPiecePrefix(s[1..], sep);
      ExtendFree(s, rest[0], sep);
      forall k | 1 <= k < |Split(s, sep)| ensures Split(s, sep)[k] == rest[k] {}
    }
  }

  /** A string that does not contain the separator's first character is one piece. */
  lemma {:induction false} SplitWithoutSep(s: string, sep: string)
    requires sep != [] && sep[0] !in s
    ensures Split(s, sep) == [s]
    decreases |s|
  {
    if |s| >= |sep| {
      assert s[..|sep|][0] != sep[0];
      SplitWithoutSep(s[1..], sep);
      assert [s[0]] + s[1..] == s;
    }
  }

  /** With a one-character separator, splitting at its first occurrence. */
  lemma {:induction false} SplitAtFirstSep(p: string, rest: string, sep: string)
    requires |sep| == 1 && sep[0] !in p
    ensures Split(p + sep + rest, sep) == [p] + Split(rest, sep)
    decreases |p|
  {
    var s := p + sep + rest;
    if p == [] {
      assert s[..1] == sep;
      assert s[1..] == rest;
    } else {
      assert s[..1] != sep by { assert s[0] == p[0]; }
      assert s[1..] == p[1..] + sep + rest;
      SplitAtFirstSep(p[1..], rest, sep);
      assert [s[0]] + p[1..] == p;
    }
  }

  /** With a one-character separator that no part contains, splitting undoes joining. */
  lemma {:induction false} SplitJoin(parts: seq<string>, sep: string)
    requires |parts| >= 1 && |sep| == 1
    requires forall k :: 0 <= k < |parts| ==> sep[0] !in parts[k]
    ensures Split(Join(parts, sep), sep) == parts
  {
    if |parts| == 1 {
      SplitWithoutSep(parts[0], sep);
    } else {
      SplitJoin(parts[1..], sep);
      SplitAtFirstSep(parts[0], Join(parts[1..], sep), sep);
      assert parts == [parts[0]] + parts[1..];
    }
  }

  /** For a one-character separator, "free of the separator" means "does not hold the character". */
  lemma FreeOfChar(s: string, sep: string)
    requires |sep| == 1 && FreeOf(s, sep)
    ensures sep[0] !in s
  {
    if sep[0] in s {
      var i :| 0 <= i < |s| && s[i] == sep[0];
      assert s[i..i + 1] == sep;
      assert SepAt(s, sep, i);
    }
  }
}
