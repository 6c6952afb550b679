/**
  Paths as the standard library's `Path`/`PathBuf` see them: a flag saying
  whether the path is rooted at `/`, and the list of its normal components.
  Parsing a string splits it on the separator and drops the empty pieces
  that repeated or trailing separators leave behind, which is how two
  spellings of one path (`a//b`, `a/b/`) compare equal.
*/
module Paths {

  const Sep: char := '/'

  type Segment = string

  datatype Path = Path(absolute: bool, segments: seq<Segment>)

  /** A component that can appear in a parsed path: not empty, no separator. */
  predicate ValidSegment(s: Segment) {
    s != [] && Sep !in s
  }

  predicate WellFormed(p: Path) {
    forall i :: 0 <= i < |p.segments| ==> ValidSegment(p.segments[i])
  }

  /** The pieces of `s` between separators, empty pieces included. */
  function Split(s: string): (pieces: seq<string>)
    ensures |pieces| >= 1
    ensures forall i :: 0 <= i < |pieces| ==> Sep !in pieces[i]
    ensures Intercalate(pieces) == s
    decreases |s|
  {
    if s == [] then [[]]
    else
      var rest := Split(s[1..]);
      if s[0] == Sep then [[]] + rest
      else [[s[0]] + rest[0]] + rest[1..]
  }

  /** The pieces glued back together with one separator between neighbours. */
  function Intercalate(pieces: seq<string>): string
    requires |pieces| >= 1
  {
    if |pieces| == 1 then pieces[0]
    else pieces[0] + [Sep] + Intercalate(pieces[1..])
  }

  /** The pieces that are not empty, in order. */
  function NonEmpty(pieces: seq<string>): (r: seq<string>)
    ensures |r| <= |pieces|
    ensures forall i :: 0 <= i < |r| ==> r[i] != [] && r[i] in pieces
    ensures (forall i :: 0 <= i < |pieces| ==> pieces[i] != []) ==> r == pieces
  {
    if pieces == [] then []
    else if pieces[0] == [] then NonEmpty(pieces[1..])
    else [pieces[0]] + NonEmpty(pieces[1..])
  }

  /** `PathBuf::from(s)`: the components of a string. */
  function Parse(s: string): (p: Path)
    ensures WellFormed(p)
    ensures p.absolute <==> (|s| > 0 && s[0] == Sep)
  {
    Path(|s| > 0 && s[0] == Sep, NonEmpty(Split(s)))
  }

  /**
    The canonical spelling of a path: a leading separator when it is rooted,
    then its components with one separator between neighbours. It is what
    `Path::display` shows for a path built from a canonically spelled root
    and a plainly written target (see `DisplayJoinDotted`).
  */
  function Display(p: Path): (s: string)
    ensures p.absolute ==> |s| > 0 && s[0] == Sep
    ensures WellFormed(p) && !p.absolute ==> s == [] || s[0] != Sep
    ensures WellFormed(p) ==> (s == [] <==> !p.absolute && p.segments == [])
  {
    (if p.absolute then [Sep] else [])
    + (if p.segments == [] then [] else IntercalateHead(p.segments); Intercalate(p.segments))
  }

  /** Gluing starts with the first piece. */
  lemma IntercalateHead(pieces: seq<string>)
    requires |pieces| >= 1
    ensures |Intercalate(pieces)| >= |pieces[0]|
    ensures Intercalate(pieces)[..|pieces[0]|] == pieces[0]
  {
  }

  /**
    `PathBuf::join(rel)`: a relative argument is appended component by
    component; an absolute one replaces the base.
  */
  function Join(base: Path, rel: string): (p: Path)
    ensures WellFormed(base) ==> WellFormed(p)
    ensures RelativeName(rel) ==> p.absolute == base.absolute
    ensures RelativeName(rel) ==>
      |p.segments| >= |base.segments| && p.segments[..|base.segments|] == base.segments
    ensures !RelativeName(rel) && rel != [] ==> p == Parse(rel)
  {
    var tail := Parse(rel);
    if tail.absolute then tail
    else Path(base.absolute, base.segments + tail.segments)
  }

  /** The hiding rule: a `.` in front of the first piece, the rest unchanged. */
  function DotFirst(pieces: seq<string>): (r: seq<string>)
    requires |pieces| >= 1
  {
    ["." + pieces[0]] + pieces[1..]
  }

  /** A target as callers name one: not empty and not rooted. */
  predicate RelativeName(t: string) {
    t != [] && t[0] != Sep
  }

  // ---------------------------------------------------------------------
  // Splitting and gluing are inverse on separator-free pieces

  lemma {:induction false} SplitPrefix(a: string, s: string)
    requires Sep !in a
    ensures Split(a + s) == [a + Split(s)[0]] + Split(s)[1..]
    decreases |a|
  {
    if a == [] {
      assert a + s == s;
      assert a + Split(s)[0] == Split(s)[0];
      assert Split(s) == [Split(s)[0]] + Split(s)[1..];
    } else {
      assert (a + s)[1..] == a[1..] + s;
      assert (a + s)[0] == a[0];
      SplitPrefix(a[1..], s);
      assert [a[0]] + (a[1..] + Split(s)[0]) == a + Split(s)[0];
    }
  }

  lemma {:induction false} SplitIntercalate(pieces: seq<string>)
    requires |pieces| >= 1
    requires forall i :: 0 <= i < |pieces| ==> Sep !in pieces[i]
    ensures Split(Intercalate(pieces)) == pieces
    decreases |pieces|
  {
    if |pieces| == 1 {
      SplitPrefix(pieces[0], []);
      assert pieces[0] + [] == pieces[0];
    } else {
      var rest := Intercalate(pieces[1..]);
      SplitIntercalate(pieces[1..]);
      assert pieces[0] + [Sep] + rest == pieces[0] + ([Sep] + rest);
      SplitPrefix(pieces[0], [Sep] + rest);
      assert ([Sep] + rest)[1..] == rest;
      assert Split([Sep] + rest) == [[]] + pieces[1..];
      assert pieces[0] + [] == pieces[0];
    }
  }

  /** The first piece is empty exactly when the string is empty or rooted. */
  lemma FirstPiece(s: string)
    ensures Split(s)[0] == [] <==> !RelativeName(s)
    ensures s != [] && s[0] == Sep ==> Split(s) == [[]] + Split(s[1..])
  {
  }

  /** Parsing the displayed form of a well-formed path gives the path back. */
  lemma ParseDisplay(p: Path)
    requires WellFormed(p)
    ensures Parse(Display(p)) == p
  {
    if p.segments == [] {
      if p.absolute {
        assert Display(p) == [Sep];
        FirstPiece([Sep]);
        assert [Sep][1..] == [];
        assert NonEmpty(Split([Sep])) == NonEmpty([[]] + [[]]);
      } else {
        assert Display(p) == [];
        assert NonEmpty(Split([])) == NonEmpty([[]]);
      }
    } else {
      var body := Intercalate(p.segments);
      ParseBody(p.segments);
      if p.absolute {
        assert Display(p) == [Sep] + body;
        ParseRooted(body);
      } else {
        assert Display(p) == body;
      }
    }
  }

  lemma ParseBody(segs: seq<Segment>)
    requires |segs| >= 1
    requires forall i :: 0 <= i < |segs| ==> ValidSegment(segs[i])
    ensures Parse(Intercalate(segs)) == Path(false, segs)
  {
    var body := Intercalate(segs);
    SplitIntercalate(segs);
    FirstPiece(body);
  }

  lemma ParseRooted(body: string)
    ensures Parse([Sep] + body).segments == Parse(body).segments
  {
    var shown := [Sep] + body;
    FirstPiece(shown);
    assert shown[1..] == body;
  }

  // ---------------------------------------------------------------------
  // The dot-prefix rule

  /**
    Prepending `.` to a target string hides its first piece and leaves every
    other piece alone.
  */
  lemma SplitDotted(t: string)
    ensures Split("." + t) == DotFirst(Split(t))
  {
    assert ("." + t)[1..] == t;
  }

  /**
    For a relative target, the path `"." + target` parses to the target's
    own components with only the first one hidden.
  */
  lemma {:induction false} DottedTarget(t: string)
    requires RelativeName(t)
    ensures |Parse(t).segments| >= 1
    ensures Parse("." + t) == Path(false, DotFirst(Parse(t).segments))
  {
    var pieces := Split(t);
    SplitDotted(t);
    assert pieces[0] != [] && pieces[0][0] == t[0] by {
      assert t == [t[0]] + t[1..];
      SplitPrefix([t[0]], t[1..]);
    }
    assert pieces == [pieces[0]] + pieces[1..];
    assert NonEmpty(pieces) == [pieces[0]] + NonEmpty(pieces[1..]);
    var dotted := DotFirst(pieces);
    assert dotted[1..] == pieces[1..];
    assert NonEmpty(dotted) == ["." + pieces[0]] + NonEmpty(pieces[1..]);
  }

  /** Gluing two non-empty runs of pieces puts one separator between them. */
  lemma {:induction false} IntercalateAppend(a: seq<string>, b: seq<string>)
    requires |a| >= 1 && |b| >= 1
    ensures Intercalate(a + b) == Intercalate(a) + [Sep] + Intercalate(b)
    decreases |a|
  {
    if |a| == 1 {
      assert (a + b)[1..] == b;
    } else {
      assert (a + b)[1..] == a[1..] + b;
      IntercalateAppend(a[1..], b);
    }
  }

  /**
    A target without empty pieces (no doubled, leading or trailing
    separator) parses to exactly its pieces.
  */
  predicate PlainName(t: string) {
    forall i :: 0 <= i < |Split(t)| ==> Split(t)[i] != []
  }

  /**
    The same condition read off the characters: not empty, no separator at
    either end, and no two separators in a row.
  */
  predicate PlainText(t: string) {
    && t != [] && t[0] != Sep && t[|t| - 1] != Sep
    && NoDoubledSep(t)
  }

  predicate NoDoubledSep(s: string) {
    forall i :: 0 <= i < |s| - 1 ==> s[i] == Sep ==> s[i + 1] != Sep
  }

  /** A plainly written target has no empty piece. */
  lemma PlainTextIsPlain(t: string)
    requires PlainText(t)
    ensures PlainName(t)
  {
    LaterPieces(t);
    FirstPiece(t);
  }

  /**
    Without doubled separators and without a trailing one, every piece but
    the first is non-empty.
  */
  lemma {:induction false} LaterPieces(s: string)
    requires s == [] || s[|s| - 1] != Sep
    requires NoDoubledSep(s)
    ensures forall i :: 1 <= i < |Split(s)| ==> Split(s)[i] != []
    decreases |s|
  {
    if s != [] {
      var rest := Split(s[1..]);
      assert NoDoubledSep(s[1..]) by {
        forall i | 0 <= i < |s[1..]| - 1 ensures s[1..][i] == Sep ==> s[1..][i + 1] != Sep {
          assert s[1..][i] == s[i + 1] && s[1..][i + 1] == s[i + 2];
        }
      }
      LaterPieces(s[1..]);
      if s[0] == Sep {
        assert |s| >= 2 && s[1] != Sep;
        FirstPiece(s[1..]);
        assert Split(s) == [[]] + rest;
      }
    }
  }

  lemma PlainIsRelative(t: string)
    requires PlainName(t)
    ensures RelativeName(t)
    ensures Parse(t).segments == Split(t)
  {
    FirstPiece(t);
  }

  /**
    Displaying `base` joined with `"." + t` spells the base, one separator,
    a dot and the target exactly as the caller wrote it.
  */
  lemma DisplayJoinDotted(base: Path, t: string)
    requires |base.segments| >= 1
    requires PlainName(t)
    ensures Display(Join(base, "." + t)) == Display(base) + "/." + t
  {
    var tail := Split("." + t);
    JoinPlain(base, t);
    IntercalateAppend(base.segments, tail);
    var lead: string := if base.absolute then [Sep] else [];
    var left := Intercalate(base.segments);
    assert Display(Join(base, "." + t)) == lead + (left + [Sep] + ("." + t));
    Regroup(lead, left, t);
  }

  /** Joining a dotted plain target appends the pieces of the dotted string. */
  lemma JoinPlain(base: Path, t: string)
    requires PlainName(t)
    ensures Join(base, "." + t) == Path(base.absolute, base.segments + Split("." + t))
  {
    PlainIsRelative(t);
    DottedTarget(t);
    SplitDotted(t);
  }

  lemma Regroup(lead: string, left: string, t: string)
    ensures lead + (left + [Sep] + ("." + t)) == (lead + left) + "/." + t
  {
    assert "/." + t == [Sep] + ("." + t);
  }
}
