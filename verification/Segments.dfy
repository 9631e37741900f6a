/** What cJSON_Minify makes of every text, said without its scanning: blanks and comments go, literals and everything
    else stay. */
module Segments {
  import opened Bytes
  import opened Minifier

  datatype Segment =
    | Blank(c: chr)
    | LineComment(body: text)    // behind its two slashes, up to the end of the line
    | BlockComment(body: text)   // between the opening slash and the closing star and slash
    | Quoted(atoms: seq<Atom>)
    | Other(c: chr)

  /** A character of a literal, alone or behind a backslash. */
  datatype Atom = Bare(c: chr) | Behind(c: chr)

  predicate IsBlankChar(c: chr) {
    c == ' ' as int || c == '\t' as int || c == '\r' as int || c == '\n' as int
  }

  predicate StartsWith(k: text, c: chr) {
    k != [] && k[0] == c
  }

  predicate NoStarSlash(b: text) {
    forall j :: 0 <= j < |b| - 1 ==> !(b[j] == '*' as int && b[j + 1] == '/' as int)
  }

  predicate AreAtoms(xs: seq<Atom>) {
    forall i :: 0 <= i < |xs| && xs[i].Bare? ==> xs[i].c != '"' as int && xs[i].c != '\\' as int
  }

  /** May the segment stand in front of `next`? The star that opens a block comment may be the one that closes it. */
  predicate IsSegment(x: Segment, next: text) {
    match x
    case Blank(c) => IsBlankChar(c)
    case LineComment(b) => (forall i :: 0 <= i < |b| ==> b[i] != '\n' as int) && (next == [] || next[0] == '\n' as int)
    case BlockComment(b) => (b == [] || b[0] == '*' as int) && NoStarSlash(b)
    case Quoted(xs) => AreAtoms(xs)
    case Other(c) =>
      !IsBlankChar(c) && c != '"' as int
      && (c == '/' as int ==> !StartsWith(next, '/' as int) && !StartsWith(next, '*' as int))
  }

  function AtomsText(xs: seq<Atom>): text {
    if xs == [] then [] else (if xs[0].Bare? then [xs[0].c] else ['\\' as int, xs[0].c]) + AtomsText(xs[1..])
  }

  function SegmentText(x: Segment): text {
    match x
    case Blank(c) => [c]
    case LineComment(b) => ['/' as int] + (['/' as int] + b)
    case BlockComment(b) => ['/' as int] + (b + ['*' as int, '/' as int])
    case Quoted(xs) => ['"' as int] + (AtomsText(xs) + ['"' as int])
    case Other(c) => [c]
  }

  function SegmentsText(xs: seq<Segment>): text {
    if xs == [] then [] else SegmentText(xs[0]) + SegmentsText(xs[1..])
  }

  predicate AreSegments(xs: seq<Segment>) {
    xs == [] || (IsSegment(xs[0], SegmentsText(xs[1..])) && AreSegments(xs[1..]))
  }

  /** The literals and the other characters, in their order. */
  function KeptText(xs: seq<Segment>): text {
    if xs == [] then [] else (if xs[0].Quoted? || xs[0].Other? then SegmentText(xs[0]) else []) + KeptText(xs[1..])
  }

  // ---------------------------------------------------------------- every text of segments

  lemma {:induction false} LineEnds(b: text, k: text)
    requires IsSegment(LineComment(b), k)
    ensures SkipLine(b + k) == k
  {
    if b == [] {
      assert b + k == k;
    } else {
      assert (b + k)[1..] == b[1..] + k;
      LineEnds(b[1..], k);
    }
  }

  lemma {:induction false} BlockEnds(b: text, k: text)
    requires NoStarSlash(b)
    ensures CommentLength(b + (['*' as int, '/' as int] + k)) == |b| + 2
  {
    var rest := ['*' as int, '/' as int] + k;
    if b == [] {
      assert b + rest == rest && rest[1..][0] == '/' as int;
    } else {
      assert (b + rest)[1..] == b[1..] + rest;
      BlockEnds(b[1..], k);
      assert Peek(b[1..] + rest) == if |b| > 1 then b[1] else '*' as int;
    }
  }

  lemma {:induction false} QuotedEnds(xs: seq<Atom>, k: text)
    requires AreAtoms(xs)
    ensures InsideLength(AtomsText(xs) + (['"' as int] + k)) == |AtomsText(xs)| + 1
  {
    var rest := ['"' as int] + k;
    if xs == [] {
      assert AtomsText(xs) + rest == rest;
    } else {
      var a := if xs[0].Bare? then [xs[0].c] else ['\\' as int, xs[0].c];
      Assoc(a, AtomsText(xs[1..]), rest);
      assert (a + (AtomsText(xs[1..]) + rest))[|a|..] == AtomsText(xs[1..]) + rest;
      QuotedEnds(xs[1..], k);
    }
  }

  lemma {:induction false} SegmentShrinks(x: Segment, k: text)
    requires IsSegment(x, k)
    ensures Minify(SegmentText(x) + k)
         == Keep(if x.Quoted? || x.Other? then SegmentText(x) else [], Minify(k))
  {
    var s := SegmentText(x) + k;
    match x
    case Blank(c) => assert s[1..] == k;
    case Other(c) => assert s[1..] == k;
    case LineComment(b) => LineShrinks(b, k);
    case BlockComment(b) => BlockShrinks(b, k);
    case Quoted(xs) =>
      Assoc(['"' as int], AtomsText(xs) + ['"' as int], k);
      Assoc(AtomsText(xs), ['"' as int], k);
      QuotedEnds(xs, k);
      QuotedThen(SegmentText(x), AtomsText(xs) + ['"' as int], k);
  }

  lemma {:induction false} LineShrinks(b: text, k: text)
    requires IsSegment(LineComment(b), k)
    ensures Minify(SegmentText(LineComment(b)) + k) == Minify(k)
  {
    var slashes := ['/' as int, '/' as int];
    var s := SegmentText(LineComment(b)) + k;
    assert s == slashes + b + k && s[1..] == (['/' as int] + b) + k;
    LineEnds(slashes + b, k);
  }

  lemma {:induction false} BlockShrinks(b: text, k: text)
    requires IsSegment(BlockComment(b), k)
    ensures Minify(SegmentText(BlockComment(b)) + k) == Minify(k)
  {
    var s := SegmentText(BlockComment(b)) + k;
    assert s == (['/' as int] + b) + (['*' as int, '/' as int] + k);
    assert s[1] == if b == [] then '*' as int else b[0];
    assert s[1..][0] == s[1];
    BlockEnds(['/' as int] + b, k);
    assert s[|b| + 3..] == k;
  }

  lemma {:induction false} SegmentsShrink(xs: seq<Segment>)
    requires AreSegments(xs)
    ensures Minify(SegmentsText(xs)) == Kept(KeptText(xs))
  {
    if xs != [] {
      SegmentsShrink(xs[1..]);
      SegmentShrinks(xs[0], SegmentsText(xs[1..]));
    }
  }

  // ---------------------------------------------------------------- every text that is minified

  lemma {:induction false} SegmentsOf(s: text) returns (xs: seq<Segment>)
    requires Minify(s).Kept?
    ensures AreSegments(xs) && SegmentsText(xs) == s
    decreases |s|
  {
    if s == [] {
      xs := [];
    } else {
      var x, k := FirstSegment(s);
      var rest := SegmentsOf(k);
      xs := [x] + rest;
      assert xs[1..] == rest;
    }
  }

  lemma {:induction false} FirstSegment(s: text) returns (x: Segment, k: text)
    requires s != [] && Minify(s).Kept?
    ensures |k| < |s| && s == SegmentText(x) + k && IsSegment(x, k) && Minify(k).Kept?
  {
    assert s[1..] != [] ==> s[1..][0] == s[1];
    if IsBlank(s[0]) {
      x, k := Blank(s[0]), s[1..];
    } else if s[0] == SLASH && Peek(s[1..]) == SLASH {
      x, k := LineOf(s);
    } else if s[0] == SLASH && Peek(s[1..]) == STAR {
      x, k := BlockOf(s);
    } else if s[0] == QUOTE {
      var xs;
      xs, k := AtomsOf(s[1..]);
      x := Quoted(xs);
      Assoc([QUOTE], AtomsText(xs) + [QUOTE], k);
      Assoc(AtomsText(xs), [QUOTE], k);
      assert s == [QUOTE] + s[1..];
      assert s[1 + InsideLength(s[1..])..] == k;
    } else {
      x, k := Other(s[0]), s[1..];
    }
  }

  lemma {:induction false} LineOf(s: text) returns (x: Segment, k: text)
    requires |s| > 1 && s[0] == SLASH && s[1] == SLASH
    ensures k == SkipLine(s) && |k| < |s| && s == SegmentText(x) + k && IsSegment(x, k) && x.LineComment?
  {
    var b;
    b, k := UpToLine(s);
    assert |b| < |s| ==> k[0] == s[|b|];
    x := LineComment(b[2..]);
    assert b == ['/' as int] + (['/' as int] + b[2..]);
  }

  lemma {:induction false} UpToLine(s: text) returns (b: text, k: text)
    ensures k == SkipLine(s) && s == b + k && IsSegment(LineComment(b), k)
  {
    if s == [] || s[0] == LF {
      b, k := [], s;
    } else {
      b, k := UpToLine(s[1..]);
      b := [s[0]] + b;
    }
  }

  lemma {:induction false} BlockOf(s: text) returns (x: Segment, k: text)
    requires |s| > 1 && s[0] == SLASH && s[1] == STAR && CommentLength(s) >= 0
    ensures k == s[CommentLength(s)..] && |k| < |s| && s == SegmentText(x) + k && IsSegment(x, k) && x.BlockComment?
  {
    var b;
    assert s[1..][0] == s[1];
    b, k := UpToStar(s[1..]);
    x := BlockComment(b);
    assert s == [s[0]] + s[1..];
    assert s[1 + CommentLength(s[1..])..] == s[1..][CommentLength(s[1..])..];
  }

  lemma {:induction false} UpToStar(s: text) returns (b: text, k: text)
    requires CommentLength(s) >= 0
    ensures k == s[CommentLength(s)..] && s == b + ['*' as int, '/' as int] + k && NoStarSlash(b)
  {
    assert s[1..] != [] ==> s[1..][0] == s[1];
    if s[0] == STAR && Peek(s[1..]) == SLASH {
      b, k := [], s[2..];
    } else {
      b, k := UpToStar(s[1..]);
      assert s[1..][CommentLength(s[1..])..] == s[1 + CommentLength(s[1..])..];
      b := [s[0]] + b;
    }
  }

  lemma {:induction false} AtomsOf(s: text) returns (xs: seq<Atom>, k: text)
    requires InsideLength(s) >= 0
    ensures |k| == |s| - InsideLength(s) && AreAtoms(xs) && s == AtomsText(xs) + (['"' as int] + k)
    decreases |s|
  {
    if s[0] == QUOTE {
      xs, k := [], s[1..];
      assert s == [] + (['"' as int] + k);
    } else {
      var n := if s[0] == BACKSLASH then 2 else 1;
      var rest, x := s[n..], if n == 2 then Behind(s[1]) else Bare(s[0]);
      var ys;
      ys, k := AtomsOf(rest);
      xs := [x] + ys;
      OneAtomMore(x, ys, ['"' as int] + k);
      assert s == s[..n] + rest;
      assert s[..n] == if n == 2 then ['\\' as int, x.c] else [x.c];
    }
  }

  lemma OneAtomMore(x: Atom, xs: seq<Atom>, k: text)
    ensures AtomsText([x] + xs) + k == (if x.Bare? then [x.c] else ['\\' as int, x.c]) + (AtomsText(xs) + k)
  {
    assert ([x] + xs)[1..] == xs;
    Assoc(if x.Bare? then [x.c] else ['\\' as int, x.c], AtomsText(xs), k);
  }

  /** cJSON_Minify stays inside the text and leaves `t` exactly when the text is made of segments that keep `t`. */
  lemma {:induction false} MinifiesExactly(s: text, t: text)
    ensures Minify(s) == Kept(t)
            <==> exists xs :: AreSegments(xs) && SegmentsText(xs) == s && KeptText(xs) == t
  {
    if Minify(s).Kept? {
      var xs := SegmentsOf(s);
      SegmentsShrink(xs);
    }
    forall xs | AreSegments(xs) && SegmentsText(xs) == s ensures Minify(s) == Kept(KeptText(xs)) {
      SegmentsShrink(xs);
    }
  }
}
