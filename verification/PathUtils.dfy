/** `OCIUtils.clean_path`: a compartment path is trimmed, empty segments are
    dropped, and a leading `root` segment (in any letter case) is removed, so
    the result is relative to the tenancy. The empty result means the tenancy
    itself. */
module PathUtils {
  import opened PyText
  import opened Seqs

  predicate NonEmpty(s: string) { s != "" }

  /** A segment naming the tenancy: `root`, compared in lower case. */
  predicate IsRoot(segment: string) { Lower(segment) == "root" }

  /** The non-empty `/`-separated segments of the trimmed path, in order. */
  function Segments(path: string): (segs: seq<string>)
    ensures forall k :: 0 <= k < |segs| ==> segs[k] != "" && '/' !in segs[k]
  {
    var segs := Filter(Split(Strip(path), '/'), NonEmpty);
    assert forall k :: 0 <= k < |segs| ==> segs[k] in Split(Strip(path), '/');
    segs
  }

  /** The segments kept in the result: only the first may be dropped, and only
      when it is `root`. */
  function Relative(segs: seq<string>): (r: seq<string>)
    ensures |segs| - 1 <= |r| <= |segs| && r == segs[|segs| - |r|..]
    ensures |r| < |segs| <==> segs != [] && IsRoot(segs[0])
  {
    if segs != [] && IsRoot(segs[0]) then segs[1..] else segs
  }

  /** The path normaliser, step for step as the source writes it: join the
      non-empty pieces, give up on "", split again and drop a `root` head. */
  function CleanPath(path: string): string {
    var cleaned := Join(Filter(Split(Strip(path), '/'), NonEmpty), '/');
    if cleaned == "" then ""
    else
      var parts := Split(cleaned, '/');
      Join(if IsRoot(parts[0]) then parts[1..] else parts, '/')
  }

  /** The result is the join of the path's non-empty segments with a leading
      `root` segment removed; later `root` segments stay. */
  lemma CleanPathIsRelativeSegments(path: string)
    ensures CleanPath(path) == Join(Relative(Segments(path)), '/')
  {
    var segs := Segments(path);
    var cleaned := Join(segs, '/');
    JoinEmpty(segs, '/');
    if segs != [] {
      assert cleaned != "" by { assert segs[0] != ""; }
      SplitJoin(segs, '/');
    }
  }

  /** Joined segments that are all non-empty and `/`-free split back into
      exactly those segments, and the join is empty only for no segments. */
  lemma SegmentsOfJoin(segs: seq<string>)
    requires forall k :: 0 <= k < |segs| ==> segs[k] != "" && '/' !in segs[k]
    ensures Join(segs, '/') == "" <==> segs == []
    ensures segs != [] ==> Split(Join(segs, '/'), '/') == segs
  {
    JoinEmpty(segs, '/');
    if segs != [] {
      assert segs[0] != "";
      SplitJoin(segs, '/');
    }
  }

  /** The result is "" exactly when no segment survives; otherwise it splits
      into the surviving segments, none of them empty, so it has no leading or
      trailing `/` and no `//`. */
  lemma CleanPathShape(path: string)
    ensures var r := CleanPath(path);
      var kept := Relative(Segments(path));
      (r == "" <==> kept == []) &&
      (r != "" ==> Split(r, '/') == kept && forall k :: 0 <= k < |kept| ==> kept[k] != "")
  {
    CleanPathIsRelativeSegments(path);
    var segs := Segments(path);
    var kept := Relative(segs);
    assert forall k :: 0 <= k < |kept| ==> kept[k] in segs;
    SegmentsOfJoin(kept);
  }

  /** An output that is not "" neither starts nor ends with `/` and holds no
      `//`: every piece between slashes is non-empty. */
  lemma CleanPathHasNoEmptySegment(path: string)
    requires CleanPath(path) != ""
    ensures forall k :: 0 <= k < |Split(CleanPath(path), '/')| ==> Split(CleanPath(path), '/')[k] != ""
  {
    CleanPathShape(path);
  }

  /** Every segment of a non-empty result is a segment of the trimmed input. */
  lemma CleanPathKeepsInputSegments(path: string, seg: string)
    requires CleanPath(path) != "" && seg in Split(CleanPath(path), '/')
    ensures seg in Split(Strip(path), '/') && seg != ""
  {
    CleanPathShape(path);
    var segs := Segments(path);
    assert seg in segs;
  }

  /** A string made only of `sep` splits into empty pieces. */
  lemma {:induction false} SplitOfSeparators(s: string, sep: char)
    requires forall i :: 0 <= i < |s| ==> s[i] == sep
    ensures forall k :: 0 <= k < |Split(s, sep)| ==> Split(s, sep)[k] == ""
    decreases |s|
  {
    if s != [] {
      SplitOfSeparators(s[1..], sep);
    }
  }

  /** Blank input, and input made only of slashes, both mean the tenancy. */
  lemma BlankOrSlashesIsTenancy(path: string)
    requires (forall i :: 0 <= i < |path| ==> IsSpace(path[i])) ||
             (forall i :: 0 <= i < |path| ==> path[i] == '/')
    ensures CleanPath(path) == ""
  {
    var t := Strip(path);
    if !(forall i :: 0 <= i < |path| ==> IsSpace(path[i])) {
      assert t == path;
    }
    assert forall i :: 0 <= i < |t| ==> t[i] == '/';
    SplitOfSeparators(t, '/');
    FilterNonePass(Split(t, '/'), NonEmpty);
    CleanPathIsRelativeSegments(path);
  }

  /** A path with no blank ends that is the `/`-join of `pieces` normalises
      to the non-empty pieces with a leading `root` removed. */
  lemma CleanPathOfPieces(path: string, pieces: seq<string>)
    requires path != [] && !IsSpace(path[0]) && !IsSpace(path[|path| - 1])
    requires |pieces| >= 1 && forall k :: 0 <= k < |pieces| ==> '/' !in pieces[k]
    requires Join(pieces, '/') == path
    ensures CleanPath(path) == Join(Relative(Filter(pieces, NonEmpty)), '/')
  {
    CleanPathIsRelativeSegments(path);
    SplitJoin(pieces, '/');
  }

  /** A string with no upper-case ASCII letter is its own lower case. */
  lemma LowerUnchanged(s: string)
    requires forall i :: 0 <= i < |s| ==> !('A' <= s[i] <= 'Z')
    ensures Lower(s) == s
  {
  }

  /** A segment whose first letter is not `r` in either case is not `root`. */
  lemma NotRootByFirstChar(seg: string)
    requires seg != "" && seg[0] != 'r' && seg[0] != 'R'
    ensures !IsRoot(seg)
  {
    assert Lower(seg)[0] != 'r';
  }

  lemma RootIsRoot()
    ensures IsRoot("root")
  {
    LowerUnchanged("root");
  }

  /** Behind `root/`, a path with no blank ends keeps its segments, after
      `root` itself. */
  lemma SegmentsBehindRoot(path: string)
    requires path != [] && !IsSpace(path[0]) && !IsSpace(path[|path| - 1])
    ensures Segments("root/" + path) == ["root"] + Segments(path)
  {
    var full := "root/" + path;
    assert full == "root" + ['/'] + path;
    SplitAfterPiece("root", path, '/');
    assert Strip(full) == full by {
      assert !IsSpace(full[0]) && full[|full| - 1] == path[|path| - 1];
    }
    assert Strip(path) == path;
    FilterAppend(["root"], Split(path, '/'), NonEmpty);
    assert Filter(["root"], NonEmpty) == ["root"] by {
      assert ["root"][..0] == [];
    }
  }

  /** A leading `root/` changes nothing for a path with no blank ends whose
      first segment is not itself `root`. */
  lemma RootPrefixIsRedundant(path: string)
    requires path != [] && !IsSpace(path[0]) && !IsSpace(path[|path| - 1])
    requires Segments(path) == [] || !IsRoot(Segments(path)[0])
    ensures CleanPath("root/" + path) == CleanPath(path)
  {
    SegmentsBehindRoot(path);
    CleanPathIsRelativeSegments("root/" + path);
    CleanPathIsRelativeSegments(path);
    RootIsRoot();
    assert (["root"] + Segments(path))[1..] == Segments(path);
  }

  /** A single segment with no blank ends normalises to itself, or to the
      tenancy when it is `root`. */
  lemma SingleSegment(seg: string)
    requires seg != "" && '/' !in seg && !IsSpace(seg[0]) && !IsSpace(seg[|seg| - 1])
    ensures CleanPath(seg) == if IsRoot(seg) then "" else seg
  {
    CleanPathOfPieces(seg, [seg]);
    assert [seg][..0] == [];
  }

  /** The same holds behind a leading `/`. */
  lemma SlashThenSegment(seg: string)
    requires seg != "" && '/' !in seg && !IsSpace(seg[|seg| - 1])
    ensures CleanPath("/" + seg) == if IsRoot(seg) then "" else seg
  {
    var pieces := ["", seg];
    assert Join(pieces, '/') == "/" + seg by {
      assert pieces[1..] == [seg];
    }
    assert Filter(pieces, NonEmpty) == [seg] by {
      assert pieces[..1] == [""] && [""][..0] == [];
    }
    CleanPathOfPieces("/" + seg, pieces);
  }

  /** A segment behind `root/` normalises to that segment unless it is
      itself `root`. */
  lemma RootThenSegment(seg: string)
    requires seg != "" && '/' !in seg && !IsSpace(seg[|seg| - 1])
    ensures CleanPath("root/" + seg) == seg
  {
    var pieces := ["root", seg];
    assert Join(pieces, '/') == "root/" + seg by {
      assert pieces[1..] == [seg];
    }
    assert Filter(pieces, NonEmpty) == ["root", seg] by {
      assert pieces[..1] == ["root"] && ["root"][..0] == [];
    }
    CleanPathOfPieces("root/" + seg, pieces);
    RootIsRoot();
    assert ["root", seg][1..] == [seg];
  }

  /** `root///a/b/` is the `/`-join of `root`, two empty pieces, `a`, `b`
      and a final empty piece. */
  lemma JoinRootTwoSegments(a: string, b: string)
    ensures Join(["root", "", "", a, b, ""], '/') == "root///" + a + "/" + b + "/"
  {
    var pieces := ["root", "", "", a, b, ""];
    assert Join(pieces[4..], '/') == b + "/" by { assert pieces[4..][1..] == [""]; }
    assert Join(pieces[3..], '/') == a + "/" + b + "/" by { assert pieces[3..][1..] == pieces[4..]; }
    assert Join(pieces[2..], '/') == "/" + a + "/" + b + "/" by { assert pieces[2..][1..] == pieces[3..]; }
    assert Join(pieces[1..], '/') == "//" + a + "/" + b + "/" by { assert pieces[1..][1..] == pieces[2..]; }
  }

  /** Of three pieces whose last is empty, the first two are kept when
      non-empty; an empty second piece is dropped. */
  lemma FilterTrailingEmpty(x: string, y: string)
    requires x != ""
    ensures y != "" ==> Filter([x, y, ""], NonEmpty) == [x, y]
    ensures y == "" ==> Filter([x, y, ""], NonEmpty) == [x]
  {
    assert [x][..0] == [];
    assert Filter([x], NonEmpty) == [x];
    assert [x, y][..1] == [x];
    assert [x, y, ""][..2] == [x, y];
  }

  /** Of those pieces, `root`, `a` and `b` survive the filter, in order. */
  lemma FilterRootTwoSegments(a: string, b: string)
    requires a != "" && b != ""
    ensures Filter(["root", "", "", a, b, ""], NonEmpty) == ["root", a, b]
  {
    assert ["root", "", "", a, b, ""] == ["root", "", ""] + [a, b, ""];
    FilterAppend(["root", "", ""], [a, b, ""], NonEmpty);
    FilterTrailingEmpty("root", "");
    FilterTrailingEmpty(a, b);
  }

  /** Repeated and trailing slashes after `root` vanish: two segments behind
      `root///` and before a trailing `/` come out joined by one `/`. */
  lemma RootThenTwoSegments(a: string, b: string)
    requires a != "" && '/' !in a && b != "" && '/' !in b
    ensures CleanPath("root///" + a + "/" + b + "/") == a + "/" + b
  {
    var pieces := ["root", "", "", a, b, ""];
    JoinRootTwoSegments(a, b);
    FilterRootTwoSegments(a, b);
    assert forall k :: 0 <= k < |pieces| ==> '/' !in pieces[k];
    CleanPathOfPieces("root///" + a + "/" + b + "/", pieces);
    RootIsRoot();
    assert ["root", a, b][1..] == [a, b];
  }

  /** The documented example `test` gives `test`. */
  lemma PlainNameExample()
    ensures CleanPath("test") == "test"
  {
    SingleSegment("test");
    NotRootByFirstChar("test");
  }

  /** The documented example `/test` gives `test`. */
  lemma LeadingSlashExample()
    ensures CleanPath("/test") == "test"
  {
    assert "/test" == "/" + "test";
    SlashThenSegment("test");
    NotRootByFirstChar("test");
  }

  /** The documented example `root/test` gives `test`. */
  lemma RootPrefixExample()
    ensures CleanPath("root/test") == "test"
  {
    assert "root/test" == "root/" + "test";
    RootThenSegment("test");
  }

  /** The documented example `root` means the tenancy. */
  lemma RootExample()
    ensures CleanPath("root") == ""
  {
    SingleSegment("root");
    RootIsRoot();
  }

  /** The documented example `/` means the tenancy. */
  lemma SlashExample()
    ensures CleanPath("/") == ""
  {
    BlankOrSlashesIsTenancy("/");
  }

  /** Normalising is not idempotent: `root/root` becomes `root`, which in turn
      becomes "". */
  lemma NotIdempotent()
    ensures CleanPath("root/root") == "root"
    ensures CleanPath(CleanPath("root/root")) == ""
  {
    assert "root/root" == "root/" + "root";
    RootThenSegment("root");
    RootExample();
  }
}
