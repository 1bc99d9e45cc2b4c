/** Path segmentation, shared by internal/router/router.go and internal/route/route.go. */
module Paths {

  /** strings.SplitSeq(s, sep) for a one-character separator: the pieces between separators, at least one. */
  function Split(s: string, sep: char): (pieces: seq<string>)
    ensures |pieces| >= 1
  {
    if s == "" then [""]
    else if s[0] == sep then [""] + Split(s[1..], sep)
    else
      var rest := Split(s[1..], sep);
      [[s[0]] + rest[0]] + rest[1..]
  }

  /** One piece of a path: empty and "." vanish, ".." drops the segment before it. */
  function ResolvePiece(out: seq<string>, piece: string): seq<string> {
    if piece == "" || piece == "." then out
    else if piece == ".." then (if out == [] then [] else out[..|out| - 1])
    else out + [piece]
  }

  function Resolve(out: seq<string>, pieces: seq<string>): seq<string>
    decreases |pieces|
  {
    if pieces == [] then out else Resolve(ResolvePiece(out, pieces[0]), pieces[1..])
  }

  /** The traversal-resolved segments of a path. */
  function Segments(path: string): seq<string> {
    Resolve([], Split(path, '/'))
  }

  function JoinAll(segs: seq<string>): string {
    if segs == [] then "" else "/" + segs[0] + JoinAll(segs[1..])
  }

  function Join(segs: seq<string>): string {
    if segs == [] then "/" else JoinAll(segs)
  }

  function NonEmptyPieces(pieces: seq<string>): seq<string> {
    if pieces == [] then []
    else (if pieces[0] == "" then [] else [pieces[0]]) + NonEmptyPieces(pieces[1..])
  }

  /** Each segment split again at its colons, for the matching of limit patterns. */
  function ColonSplit(segs: seq<string>): seq<string> {
    if segs == [] then [] else NonEmptyPieces(Split(segs[0], ':')) + ColonSplit(segs[1..])
  }

  function SplitSegments(path: string): seq<string> {
    ColonSplit(Segments(path))
  }

  lemma Associate<T>(a: seq<T>, b: seq<T>, c: seq<T>)
    ensures a + (b + c) == (a + b) + c
  {
  }

  // ----- The loops of the two packages -----

  /** router.segments, and the first half of route.splitSegments. */
  method ComputeSegments(path: string) returns (out: seq<string>)
    ensures out == Segments(path)
  {
    out := [];
    var pieces := Split(path, '/');
    var i := 0;
    while i < |pieces|
      invariant 0 <= i <= |pieces|
      invariant Resolve(out, pieces[i..]) == Segments(path)
    {
      var seg := pieces[i];
      i := i + 1;
      if seg == "" || seg == "." {
        continue;
      }
      if seg == ".." {
        if |out| > 0 {
          out := out[..|out| - 1];
        }
        continue;
      }
      out := out + [seg];
    }
  }

  method ComputeJoin(segs: seq<string>) returns (path: string)
    ensures path == Join(segs)
  {
    if segs == [] {
      return "/";
    }
    path := "";
    for i := 0 to |segs|
      invariant path + JoinAll(segs[i..]) == JoinAll(segs)
    {
      var piece := "/" + segs[i];
      assert segs[i..][1..] == segs[i + 1..];
      Associate(path, piece, JoinAll(segs[i + 1..]));
      path := path + piece;
    }
  }

  /** The inner loop of route.splitSegments over one resolved segment. */
  method ComputeColonPieces(seg: string) returns (out: seq<string>)
    ensures out == NonEmptyPieces(Split(seg, ':'))
  {
    var subs := Split(seg, ':');
    out := [];
    for j := 0 to |subs|
      invariant out + NonEmptyPieces(subs[j..]) == NonEmptyPieces(subs)
    {
      assert subs[j..][1..] == subs[j + 1..];
      if subs[j] != "" {
        out := out + [subs[j]];
      }
    }
  }

  method ComputeSplitSegments(path: string) returns (out: seq<string>)
    ensures out == SplitSegments(path)
  {
    var resolved := ComputeSegments(path);
    out := [];
    for i := 0 to |resolved|
      invariant out + ColonSplit(resolved[i..]) == ColonSplit(resolved)
    {
      var subs := ComputeColonPieces(resolved[i]);
      assert resolved[i..][1..] == resolved[i + 1..];
      out := out + subs;
    }
  }

  // ----- Laws of resolution -----

  /** A segment that resolution leaves alone. */
  predicate Clean(seg: string) {
    seg != "" && seg != "." && seg != ".." && '/' !in seg
  }

  ghost predicate AllClean(segs: seq<string>) {
    forall s :: s in segs ==> Clean(s)
  }

  lemma {:induction false} SplitHasNoSeparator(s: string, sep: char)
    ensures forall p :: p in Split(s, sep) ==> sep !in p
  {
    if s != "" {
      SplitHasNoSeparator(s[1..], sep);
      var rest := Split(s[1..], sep);
      assert sep !in rest[0] && forall p :: p in rest[1..] ==> p in rest;
    }
  }

  lemma {:induction false} ResolveKeepsClean(out: seq<string>, pieces: seq<string>)
    requires AllClean(out) && forall p :: p in pieces ==> '/' !in p
    ensures AllClean(Resolve(out, pieces))
    decreases |pieces|
  {
    if pieces != [] {
      assert AllClean(ResolvePiece(out, pieces[0]));
      ResolveKeepsClean(ResolvePiece(out, pieces[0]), pieces[1..]);
    }
  }

  /** No segment of any path is empty, ".", ".." or contains a slash. */
  lemma SegmentsAreClean(path: string)
    ensures AllClean(Segments(path))
  {
    SplitHasNoSeparator(path, '/');
    ResolveKeepsClean([], Split(path, '/'));
  }

  lemma SplitCons(c: char, rest: string, sep: char)
    ensures Split([c] + rest, sep) ==
            if c == sep then [""] + Split(rest, sep)
            else [[c] + Split(rest, sep)[0]] + Split(rest, sep)[1..]
  {
    assert ([c] + rest)[1..] == rest;
  }

  lemma ReplaceHead(head: string, xs: seq<string>, ys: seq<string>)
    requires xs != []
    ensures [head] + (xs + ys)[1..] == ([head] + xs[1..]) + ys && (xs + ys)[0] == xs[0]
  {
    assert (xs + ys)[1..] == xs[1..] + ys;
    Associate([head], xs[1..], ys);
  }

  lemma {:induction false} SplitAt(a: string, rest: string, sep: char)
    requires rest != "" && rest[0] == sep
    ensures Split(a + rest, sep) == Split(a, sep) + Split(rest[1..], sep)
  {
    if a == "" {
      assert a + rest == rest;
    } else {
      var front, back := Split(a[1..], sep), Split(rest[1..], sep);
      SplitAt(a[1..], rest, sep);
      assert (a + rest)[1..] == a[1..] + rest;
      if a[0] == sep {
        Associate([""], front, back);
      } else {
        ReplaceHead([a[0]] + front[0], front, back);
      }
    }
  }

  lemma SplitAcross(a: string, b: string, sep: char)
    ensures Split(a + [sep] + b, sep) == Split(a, sep) + Split(b, sep)
  {
    SplitAt(a, [sep] + b, sep);
    Associate(a, [sep], b);
    assert ([sep] + b)[1..] == b;
  }

  lemma {:induction false} SplitWithout(s: string, sep: char)
    requires sep !in s
    ensures Split(s, sep) == [s]
  {
    if s != "" {
      SplitWithout(s[1..], sep);
      assert [s[0]] + s[1..] == s;
    }
  }

  lemma {:induction false} SplitJoined(segs: seq<string>)
    requires AllClean(segs)
    ensures Split(JoinAll(segs), '/') == [""] + segs
  {
    if segs != [] {
      var rest := JoinAll(segs[1..]);
      SplitJoined(segs[1..]);
      assert Clean(segs[0]);
      SplitPrepend(segs[0], rest, segs[1..]);
      Associate("/", segs[0], rest);
      SplitCons('/', segs[0] + rest, '/');
      Associate([""], [segs[0]], segs[1..]);
      assert [segs[0]] + segs[1..] == segs;
    }
  }

  lemma {:induction false} SplitPrepend(seg: string, rest: string, segs: seq<string>)
    requires '/' !in seg && Split(rest, '/') == [""] + segs
    ensures Split(seg + rest, '/') == [seg] + segs
  {
    if seg == "" {
      assert seg + rest == rest;
    } else {
      SplitPrepend(seg[1..], rest, segs);
      assert seg + rest == [seg[0]] + (seg[1..] + rest);
      SplitCons(seg[0], seg[1..] + rest, '/');
      assert [seg[0]] + seg[1..] == seg;
    }
  }

  lemma {:induction false} ResolveClean(out: seq<string>, segs: seq<string>)
    requires AllClean(segs)
    ensures Resolve(out, segs) == out + segs
    decreases |segs|
  {
    if segs != [] {
      ResolveClean(out + [segs[0]], segs[1..]);
      assert Clean(segs[0]);
      assert out + [segs[0]] + segs[1..] == out + segs;
    }
  }

  /** Joining clean segments and segmenting again gives them back. */
  lemma SegmentsOfJoin(segs: seq<string>)
    requires AllClean(segs)
    ensures Segments(Join(segs)) == segs
  {
    if segs == [] {
      assert Split("/", '/') == ["", ""];
    } else {
      SplitJoined(segs);
      assert ([""] + segs)[1..] == segs;
      ResolveClean([], segs);
    }
  }

  /** Rebuilding a path from its segments changes neither its segments nor its limit-pattern tokens. */
  lemma RebuildingIsInvisible(path: string)
    ensures Segments(Join(Segments(path))) == Segments(path)
    ensures SplitSegments(Join(Segments(path))) == SplitSegments(path)
  {
    SegmentsAreClean(path);
    SegmentsOfJoin(Segments(path));
  }

  lemma {:induction false} ResolveAppend(out: seq<string>, a: seq<string>, b: seq<string>)
    ensures Resolve(out, a + b) == Resolve(Resolve(out, a), b)
    decreases |a|
  {
    if a == [] {
      assert a + b == b;
    } else {
      assert (a + b)[1..] == a[1..] + b;
      ResolveAppend(ResolvePiece(out, a[0]), a[1..], b);
    }
  }

  /** Resolution is homomorphic: a longer path resolves by continuing from the segments of its front. */
  lemma SegmentsOfConcat(front: string, back: string)
    ensures Segments(front + "/" + back) == Resolve(Segments(front), Split(back, '/'))
  {
    SplitAcross(front, back, '/');
    assert front + ['/'] + back == front + "/" + back;
    ResolveAppend([], Split(front, '/'), Split(back, '/'));
  }

  /** A trailing ".." drops the last segment, and stops at the root. */
  lemma SegmentsOfParent(front: string)
    ensures Segments(front + "/..") == if Segments(front) == [] then [] else Segments(front)[..|Segments(front)| - 1]
  {
    SegmentsOfConcat(front, "..");
    assert front + "/" + ".." == front + "/..";
    SplitWithout("..", '/');
    ResolveOne(Segments(front), "..");
  }

  lemma ResolveOne(out: seq<string>, piece: string)
    ensures Resolve(out, [piece]) == ResolvePiece(out, piece)
  {
    assert [piece][1..] == [];
  }

  lemma ColonSplitCons(seg: string, rest: seq<string>)
    ensures ColonSplit([seg] + rest) == NonEmptyPieces(Split(seg, ':')) + ColonSplit(rest)
  {
    assert ([seg] + rest)[1..] == rest;
  }

  lemma {:induction false} ColonSplitAppend(a: seq<string>, b: seq<string>)
    ensures ColonSplit(a + b) == ColonSplit(a) + ColonSplit(b)
  {
    if a == [] {
      assert a + b == b;
    } else {
      var head, tail := NonEmptyPieces(Split(a[0], ':')), a[1..];
      ColonSplitAppend(tail, b);
      Associate([a[0]], tail, b);
      assert [a[0]] + tail == a;
      ColonSplitCons(a[0], tail + b);
      ColonSplitCons(a[0], tail);
      Associate(head, ColonSplit(tail), ColonSplit(b));
    }
  }

  // ----- Pieces in the middle of a path -----

  lemma {:induction false} ResolveHead(out: seq<string>, piece: string, rest: seq<string>)
    ensures Resolve(out, [piece] + rest) == Resolve(ResolvePiece(out, piece), rest)
  {
    ResolveAppend(out, [piece], rest);
    ResolveOne(out, piece);
  }

  lemma SegmentsThrough(front: string, piece: string, back: string)
    requires '/' !in piece
    ensures Segments(front + "/" + piece + "/" + back) ==
              Resolve(ResolvePiece(Segments(front), piece), Split(back, '/'))
  {
    SplitAcross(piece, back, '/');
    SplitWithout(piece, '/');
    var tail := piece + "/" + back;
    assert piece + ['/'] + back == tail;
    SegmentsOfConcat(front, tail);
    assert front + "/" + tail == front + "/" + piece + "/" + back;
    ResolveHead(Segments(front), piece, Split(back, '/'));
  }

  /** A repeated slash and a "." in the middle of a path change nothing, and ".." undoes the segment before it. */
  lemma MiddlePieces(front: string, seg: string, back: string)
    ensures Segments(front + "//" + back) == Segments(front + "/" + back)
    ensures Segments(front + "/./" + back) == Segments(front + "/" + back)
    ensures Clean(seg) ==> Segments(front + "/" + seg + "/../" + back) == Segments(front + "/" + back)
  {
    SegmentsOfConcat(front, back);
    SegmentsThrough(front, "", back);
    assert front + "/" + "" + "/" + back == front + "//" + back;
    SegmentsThrough(front, ".", back);
    assert front + "/" + "." + "/" + back == front + "/./" + back;
    if Clean(seg) {
      UndoneSegment(front, seg, back);
    }
  }

  lemma UndoneSegment(front: string, seg: string, back: string)
    requires Clean(seg)
    ensures Segments(front + "/" + seg + "/../" + back) == Segments(front + "/" + back)
  {
    SegmentsOfConcat(front, back);
    SegmentOfClean(front, seg);
    SegmentsThrough(front + "/" + seg, "..", back);
    assert front + "/" + seg + "/" + ".." + "/" + back == front + "/" + seg + "/../" + back;
    assert (Segments(front) + [seg])[..|Segments(front)|] == Segments(front);
  }

  /** A clean segment at the end of a path is its last one. */
  lemma SegmentOfClean(front: string, seg: string)
    requires Clean(seg)
    ensures Segments(front + "/" + seg) == Segments(front) + [seg]
  {
    SegmentsOfConcat(front, seg);
    SplitWithout(seg, '/');
    ResolveOne(Segments(front), seg);
  }

  /** Above the root there is nothing. */
  lemma ParentOfRoot(back: string)
    ensures Segments("") == [] && Segments("/../" + back) == Segments("/" + back)
  {
    assert Split("", '/') == [""];
    ResolveOne([], "");
    SegmentsThrough("", "..", back);
    assert "" + "/" + ".." + "/" + back == "/../" + back;
    SegmentsOfConcat("", back);
    assert "" + "/" + back == "/" + back;
  }

  // ----- Tokens between colons -----

  lemma {:induction false} NonEmptyAppend(a: seq<string>, b: seq<string>)
    ensures NonEmptyPieces(a + b) == NonEmptyPieces(a) + NonEmptyPieces(b)
  {
    if a == [] {
      assert a + b == b;
    } else {
      NonEmptyAppend(a[1..], b);
      assert (a + b)[1..] == a[1..] + b;
      Associate(if a[0] == "" then [] else [a[0]], NonEmptyPieces(a[1..]), NonEmptyPieces(b));
    }
  }

  /** A colon separates tokens, however many colons there are, and a segment without one is a single token. */
  lemma TokensOfSegment(a: string, b: string)
    ensures ColonSplit([a + ":" + b]) == ColonSplit([a]) + ColonSplit([b])
    ensures ':' !in a ==> ColonSplit([a]) == if a == "" then [] else [a]
  {
    SplitAcross(a, b, ':');
    assert a + [':'] + b == a + ":" + b;
    NonEmptyAppend(Split(a, ':'), Split(b, ':'));
    OneSegment(a + ":" + b);
    OneSegment(a);
    OneSegment(b);
    if ':' !in a {
      SplitWithout(a, ':');
      assert NonEmptyPieces([a]) == if a == "" then [] else [a];
    }
  }

  lemma OneSegment(seg: string)
    ensures ColonSplit([seg]) == NonEmptyPieces(Split(seg, ':'))
  {
    ColonSplitCons(seg, []);
    assert [seg] + [] == [seg];
  }

  /** A clean last segment adds its own tokens to those of the path before it. */
  lemma TokensOfPath(front: string, seg: string)
    requires Clean(seg)
    ensures SplitSegments(front + "/" + seg) == SplitSegments(front) + ColonSplit([seg])
    ensures SplitSegments("") == []
  {
    SegmentOfClean(front, seg);
    ColonSplitAppend(Segments(front), [seg]);
    ParentOfRoot("");
  }

  /** A joined path has a slash before each segment, and the root alone is "/". */
  lemma JoinedPath(segs: seq<string>, seg: string)
    ensures Join([]) == "/"
    ensures Join([seg] + segs) == "/" + seg + (if segs == [] then "" else Join(segs))
  {
    assert ([seg] + segs)[1..] == segs;
    assert JoinAll([seg] + segs) == "/" + seg + JoinAll(segs);
  }
}
