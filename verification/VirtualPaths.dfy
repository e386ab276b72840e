/** Virtual paths: slash-separated text, its normal form, and the mapping between a share-rooted
    virtual path and a real one. */
module VirtualPaths {
  import opened Wrappers

  type Segment = string

  // ----- Text and segments ----------------------------------------------------------------

  predicate SlashFree(s: string) { forall i :: 0 <= i < |s| ==> s[i] != '/' }

  /** A segment that names something: not empty, not a dot segment, no slash inside. */
  predicate IsName(s: Segment) { s != "" && s != "." && s != ".." && SlashFree(s) }

  predicate AreNames(segs: seq<Segment>) { forall i :: 0 <= i < |segs| ==> IsName(segs[i]) }

  /** The pieces between the slashes. */
  function Split(s: string): (parts: seq<Segment>)
    ensures |parts| > 0
    ensures forall i :: 0 <= i < |parts| ==> SlashFree(parts[i])
  {
    if s == "" then [""]
    else
      var parts, c, n := Split(s[..|s| - 1]), s[|s| - 1], |Split(s[..|s| - 1])|;
      if c == '/' then parts + [""] else parts[..n - 1] + [parts[n - 1] + [c]]
  }

  /** Every segment with a slash before it. */
  function Full(segs: seq<Segment>): string {
    if |segs| == 0 then "" else Full(segs[..|segs| - 1]) + "/" + segs[|segs| - 1]
  }

  /** The text of an absolute path. */
  function Show(segs: seq<Segment>): string {
    if |segs| == 0 then "/" else Full(segs)
  }

  lemma {:induction false} SplitAppend(s: string, x: Segment)
    requires SlashFree(x)
    ensures Split(s + "/" + x) == Split(s) + [x]
  {
    var t := s + "/" + x;
    if x == "" {
      assert t[..|t| - 1] == s;
    } else {
      var y := x[..|x| - 1];
      assert t[..|t| - 1] == s + "/" + y;
      SplitAppend(s, y);
      assert x == y + [x[|x| - 1]];
    }
  }

  lemma {:induction false} SplitFull(segs: seq<Segment>)
    requires forall i :: 0 <= i < |segs| ==> SlashFree(segs[i])
    ensures Split(Full(segs)) == [""] + segs
  {
    if |segs| > 0 {
      var n := |segs| - 1;
      SplitFull(segs[..n]);
      SplitAppend(Full(segs[..n]), segs[n]);
      assert segs == segs[..n] + [segs[n]];
    }
  }

  lemma {:induction false} SplitPrepend(s: string)
    ensures Split("/" + s) == [""] + Split(s)
  {
    if s == "" {
      assert Split("/") == Split("") + [""];
    } else {
      var t := "/" + s;
      assert t[..|t| - 1] == "/" + s[..|s| - 1];
      SplitPrepend(s[..|s| - 1]);
    }
  }

  // ----- Normal form -----------------------------------------------------------------------

  /** One segment onto the stack of a normalising walk from the root. */
  function Push(stack: seq<Segment>, s: Segment): seq<Segment> {
    if s == "" || s == "." then stack
    else if s == ".." then (if |stack| == 0 then stack else stack[..|stack| - 1])
    else stack + [s]
  }

  function Walk(stack: seq<Segment>, parts: seq<Segment>): seq<Segment> {
    if |parts| == 0 then stack else Push(Walk(stack, parts[..|parts| - 1]), parts[|parts| - 1])
  }

  /** The segments a path denotes. */
  function Segments(path: string): (segs: seq<Segment>)
    ensures AreNames(segs)
  {
    WalkKeepsNames([], Split(path));
    Walk([], Split(path))
  }

  lemma {:induction false} WalkKeepsNames(stack: seq<Segment>, parts: seq<Segment>)
    requires AreNames(stack) && forall i :: 0 <= i < |parts| ==> SlashFree(parts[i])
    ensures AreNames(Walk(stack, parts))
  {
    if |parts| > 0 {
      WalkKeepsNames(stack, parts[..|parts| - 1]);
    }
  }

  lemma {:induction false} WalkNames(stack: seq<Segment>, parts: seq<Segment>)
    requires AreNames(parts)
    ensures Walk(stack, parts) == stack + parts
  {
    if |parts| > 0 {
      WalkNames(stack, parts[..|parts| - 1]);
      assert parts == parts[..|parts| - 1] + [parts[|parts| - 1]];
    }
  }

  lemma {:induction false} WalkConcat(stack: seq<Segment>, a: seq<Segment>, b: seq<Segment>)
    ensures Walk(stack, a + b) == Walk(Walk(stack, a), b)
  {
    if |b| == 0 {
      assert a + b == a;
    } else {
      WalkConcat(stack, a, b[..|b| - 1]);
      assert (a + b)[..|a + b| - 1] == a + b[..|b| - 1];
    }
  }

  /** posix.normalize on an absolute path: a trailing slash survives. */
  function PosixNormalize(path: string): string {
    var segs := Segments(path);
    if |segs| == 0 then "/"
    else Full(segs) + (if path != "" && path[|path| - 1] == '/' then "/" else "")
  }

  function StripSlashes(s: string): string {
    if s != "" && s[|s| - 1] == '/' then StripSlashes(s[..|s| - 1]) else s
  }

  function NormalizeVirtual(path: string): string {
    var stripped := StripSlashes(PosixNormalize("/" + (if path == "" then "/" else path)));
    if stripped == "" then "/" else stripped
  }

  lemma StripFull(segs: seq<Segment>)
    requires AreNames(segs)
    ensures StripSlashes(Full(segs)) == Full(segs)
    ensures StripSlashes(Full(segs) + "/") == Full(segs)
  {
    var t := Full(segs) + "/";
    assert t[..|t| - 1] == Full(segs);
    if |segs| > 0 {
      var x := segs[|segs| - 1];
      assert IsName(x);
      assert Full(segs)[|Full(segs)| - 1] == x[|x| - 1];
    }
  }

  lemma SegmentsWithSlash(path: string)
    ensures Segments("/" + path) == Segments(path)
    ensures Segments("/" + "/") == []
  {
    SplitPrepend(path);
    WalkConcat([], [""], Split(path));
    assert Walk([], [""]) == Walk([], []);
    SplitPrepend("/");
    SplitPrepend("");
    assert Split("//") == ["", "", ""];
    assert Walk([], ["", "", ""]) == Walk([], ["", ""]);
    assert ["", "", ""][..2] == ["", ""] && ["", ""][..1] == [""];
  }

  /** The normal form is the text of the segments. */
  lemma NormalForm(path: string)
    ensures NormalizeVirtual(path) == Show(Segments(path))
  {
    SegmentsWithSlash(path);
    StripFull(Segments(path));
    StripFull([]);
    if path == "" {
      assert Walk([], [""]) == Walk([], []);
    }
  }

  lemma SegmentsOfShow(segs: seq<Segment>)
    requires AreNames(segs)
    ensures Segments(Show(segs)) == segs
  {
    if |segs| == 0 {
      SplitPrepend("");
      assert Split("/") == ["", ""] && ["", ""][..1] == [""];
      assert Walk([], ["", ""]) == Walk([], [""]) == Walk([], []);
    } else {
      SplitFull(segs);
      WalkConcat([], [""], segs);
      assert Walk([], [""]) == Walk([], []);
      WalkNames([], segs);
    }
  }

  /** Normalising twice is normalising once, and the result splits into the same names:
      no empty, dot or dot-dot segment is left. */
  lemma NormalizeIdempotent(path: string)
    ensures NormalizeVirtual(NormalizeVirtual(path)) == NormalizeVirtual(path)
    ensures Segments(NormalizeVirtual(path)) == Segments(path)
    ensures Segments(path) != [] ==> Split(NormalizeVirtual(path)) == [""] + Segments(path)
  {
    NormalForm(path);
    SegmentsOfShow(Segments(path));
    NormalForm(Show(Segments(path)));
    SplitFull(Segments(path));
  }

  /** What one more segment does to a path: an empty one or a dot changes nothing, two dots take the last name away
      if there is one, and anything else is a name below. */
  lemma OneMoreSegment(path: string, x: Segment)
    requires '/' !in x
    ensures Segments("") == [] && Segments(x) == Segments("/" + x)
    ensures var was, now := Segments(path), Segments(path + "/" + x);
      now == if x == "" || x == "." then was
             else if x != ".." then was + [x]
             else if was == [] then [] else was[..|was| - 1]
  {
    SegmentsWithSlash(x);
    SplitAppend(path, x);
    assert (Split(path) + [x])[..|Split(path)|] == Split(path);
    assert [""][..0] == [];
  }

  /** The same said of the texts: the normal form of the empty path is a slash, and a name adds itself to it. */
  lemma NormalGrows(path: string, x: Segment)
    requires '/' !in x && x != "" && x != "." && x != ".."
    ensures NormalizeVirtual("") == "/"
    ensures var was := NormalizeVirtual(path);
      NormalizeVirtual(path + "/" + x) == (if was == "/" then "" else was) + "/" + x
  {
    OneMoreSegment(path, x);
    hide Segments, NormalizeVirtual, AreNames, Full, Split, Walk;
    NormalForm("");
    NormalForm(path);
    NormalForm(path + "/" + x);
    ShowOneMore(Segments(path), x);
  }

  /** What adds no name, and a name taken away again, leave the normal form as it is. */
  lemma NormalStays(path: string, x: Segment)
    requires '/' !in x && x != "" && x != "." && x != ".."
    ensures NormalizeVirtual(path + "/" + "") == NormalizeVirtual(path)
    ensures NormalizeVirtual(path + "/" + ".") == NormalizeVirtual(path)
    ensures NormalizeVirtual((path + "/" + x) + "/" + "..") == NormalizeVirtual(path)
  {
    var below := path + "/" + x;
    OneMoreSegment(path, x);
    OneMoreSegment(path, "");
    OneMoreSegment(path, ".");
    OneMoreSegment(below, "..");
    hide Segments, NormalizeVirtual, AreNames, Full, Split, Walk, Show;
    NormalForm(path);
    NormalForm(path + "/" + "");
    NormalForm(path + "/" + ".");
    NormalForm(below + "/" + "..");
    assert (Segments(path) + [x])[..|Segments(path)|] == Segments(path);
  }

  lemma ShowOneMore(segs: seq<Segment>, x: Segment)
    requires AreNames(segs)
    ensures Show(segs + [x]) == (if Show(segs) == "/" then "" else Show(segs)) + "/" + x
    ensures (segs + [x])[..|segs|] == segs
  {
    assert (segs + [x])[..|segs|] == segs;
    if segs != [] {
      assert IsName(segs[|segs| - 1]);
      assert Full(segs)[|Full(segs)| - 1] == segs[|segs| - 1][|segs[|segs| - 1]| - 1];
      assert Full(segs) != "/";
    }
  }

  lemma ShowInjective(a: seq<Segment>, b: seq<Segment>)
    requires AreNames(a) && AreNames(b) && Show(a) == Show(b)
    ensures a == b
  {
    SegmentsOfShow(a);
    SegmentsOfShow(b);
  }

  // ----- Prefixes ---------------------------------------------------------------------------

  lemma {:induction false} FullConcat(a: seq<Segment>, b: seq<Segment>)
    ensures Full(a + b) == Full(a) + Full(b)
  {
    if |b| == 0 {
      assert a + b == a;
    } else {
      FullConcat(a, b[..|b| - 1]);
      assert (a + b)[..|a + b| - 1] == a + b[..|b| - 1];
    }
  }

  /** What one more character does to the pieces. */
  function Grow(parts: seq<Segment>, c: char): seq<Segment>
    requires |parts| > 0
  {
    if c == '/' then parts + [""] else parts[..|parts| - 1] + [parts[|parts| - 1] + [c]]
  }

  lemma SplitGrow(s: string, c: char)
    ensures Split(s + [c]) == Grow(Split(s), c)
  {
    assert (s + [c])[..|s|] == s;
  }

  lemma GrowBehind(a: seq<Segment>, b: seq<Segment>, c: char)
    requires |b| > 0
    ensures Grow(a + b, c) == a + Grow(b, c)
  {}

  lemma LastChar(s: string, t: string)
    requires t != ""
    ensures t == t[..|t| - 1] + [t[|t| - 1]]
    ensures s + "/" + t == (s + "/" + t[..|t| - 1]) + [t[|t| - 1]]
  {}

  lemma TailsEqual<T>(x: T, a: seq<T>, b: seq<T>)
    requires [x] + a == [x] + b
    ensures a == b
  {
    assert ([x] + a)[1..] == a && ([x] + b)[1..] == b;
  }

  /** Split takes text apart at a slash. */
  lemma {:induction false} SplitAtSlash(s: string, t: string)
    ensures Split(s + "/" + t) == Split(s) + Split(t)
  {
    if t == "" {
      SplitAppend(s, "");
    } else {
      var u, c := t[..|t| - 1], t[|t| - 1];
      SplitAtSlash(s, u);
      hide Split, Grow;
      LastChar(s, t);
      SplitGrow(s + "/" + u, c);
      SplitGrow(u, c);
      GrowBehind(Split(s), Split(u), c);
    }
  }

  lemma BelowStartsWith(base: seq<Segment>, segs: seq<Segment>)
    requires AreNames(segs) && base < segs
    ensures Full(base) + "/" <= Full(segs)
  {
    var t := segs[|base|..];
    assert segs == base + t;
    FullConcat(base, t);
    FirstSegment(t);
    hide Full, Join;
    PrefixCat(Full(base), "/", Join(t));
  }

  lemma PrefixCat<T>(a: seq<T>, b: seq<T>, c: seq<T>)
    ensures a + b <= a + (b + c)
    ensures (a + b) + c == a + (b + c)
    ensures (a + b)[|a|..] == b
  {}

  function Join(segs: seq<Segment>): string {
    if |segs| == 0 then "" else Full(segs)[1..]
  }

  lemma FullOne(x: Segment)
    ensures Full([x]) == "/" + x
  {
    assert [x][..0] == [];
    assert Full([]) == "";
  }

  lemma FirstSegment(segs: seq<Segment>)
    requires |segs| > 0
    ensures |Full(segs)| > 0 && Full(segs) == "/" + Join(segs)
    ensures Join(segs) == segs[0] + Full(segs[1..])
  {
    assert segs == [segs[0]] + segs[1..];
    FullConcat([segs[0]], segs[1..]);
    FullOne(segs[0]);
    hide Full;
    PrefixCat("/", segs[0], Full(segs[1..]));
    PrefixCat("", "/", segs[0] + Full(segs[1..]));
    assert ("/" + (segs[0] + Full(segs[1..])))[1..] == segs[0] + Full(segs[1..]);
  }

  lemma StartsWithBelow(base: seq<Segment>, segs: seq<Segment>)
    requires AreNames(base) && AreNames(segs)
    requires Full(base) + "/" <= Full(segs)
    ensures base < segs
  {
    var rest := Full(segs)[|Full(base)| + 1..];
    assert Full(segs) == Full(base) + "/" + rest;
    hide Full, Split, AreNames;
    SplitAtSlash(Full(base), rest);
    SplitFull(base);
    SplitFull(segs);
    PrefixCat([""], base, Split(rest));
    TailsEqual("", segs, base + Split(rest));
  }

  /** On normal paths the text test startsWith(base + "/") means strictly below in the tree. */
  lemma StartsWithIsBelow(base: seq<Segment>, segs: seq<Segment>)
    requires AreNames(base) && AreNames(segs)
    ensures Full(base) + "/" <= Full(segs) <==> base < segs
  {
    if base < segs {
      BelowStartsWith(base, segs);
    }
    if Full(base) + "/" <= Full(segs) {
      StartsWithBelow(base, segs);
    }
  }

  // ----- Shares on disk ------------------------------------------------------------------------

  /** A share lives under a data volume or, when that is empty, under the default files root.  Neither
      string need be the name of a folder: a restored backup may hold anything. */
  datatype ShareDir = ShareDir(name: string, volume: string)

  /** The two roots, absolute paths. */
  datatype Roots = Roots(files: string, volumes: string)

  datatype PathError = InvalidPath | RootIsNotAFolder | NoSuchShare | EscapesShare

  /** resolve(base, piece) for an absolute base. */
  function Resolve(base: string, piece: string): string {
    if piece != "" && piece[0] == '/' then Show(Segments(piece)) else Show(Segments(base + "/" + piece))
  }

  function BaseOf(roots: Roots, share: ShareDir): string {
    if share.volume != "" then Resolve(Resolve(roots.volumes, share.volume), share.name)
    else Resolve(roots.files, share.name)
  }

  function FindShare(shares: seq<ShareDir>, name: Segment): (r: Option<ShareDir>)
    ensures r.Some? ==> r.value in shares && r.value.name == name
    ensures r.None? ==> forall s :: s in shares ==> s.name != name
  {
    if |shares| == 0 then None
    else if shares[0].name == name then Some(shares[0])
    else FindShare(shares[1..], name)
  }

  function NonEmpty(parts: seq<Segment>): seq<Segment> {
    if |parts| == 0 then []
    else NonEmpty(parts[..|parts| - 1]) + (if parts[|parts| - 1] == "" then [] else [parts[|parts| - 1]])
  }

  /** text.split("/").filter(Boolean) */
  function Parts(text: string): seq<Segment> { NonEmpty(Split(text)) }

  /** Translate a virtual path into a real one. */
  function ResolveSafe(roots: Roots, shares: seq<ShareDir>, virtualPath: string): Result<string, PathError> {
    var clean := NormalizeVirtual(virtualPath);
    if '\0' in clean then Err(InvalidPath)
    else
      var segs := Parts(clean);
      if |segs| == 0 then Err(RootIsNotAFolder)
      else
        var share := FindShare(shares, segs[0]);
        if share.None? then Err(NoSuchShare)
        else
          var base, rest := BaseOf(roots, share.value), Join(segs[1..]);
          var target := if rest != "" then Resolve(base, "." + "/" + rest) else base;
          if target != base && !(base + "/" <= target) then Err(EscapesShare)
          else Ok(target)
  }

  /** The first share, in list order, whose folder holds the real path. */
  function VirtualIn(roots: Roots, shares: seq<ShareDir>, target: string): string {
    if |shares| == 0 then "/"
    else
      var base := BaseOf(roots, shares[0]);
      if target == base then "/" + shares[0].name
      else if base + "/" <= target then
        "/" + shares[0].name + "/" + Join(Parts(target[|base|..]))
      else VirtualIn(roots, shares[1..], target)
  }

  function ToVirtual(roots: Roots, shares: seq<ShareDir>, realPath: string): string {
    VirtualIn(roots, shares, Show(Segments(realPath)))
  }

  // ----- The folders of shares -----------------------------------------------------------------

  /** The folder of a share, as segments. */
  function Folder(roots: Roots, share: ShareDir): (folder: seq<Segment>)
    ensures AreNames(folder)
  {
    Segments(BaseOf(roots, share))
  }

  /** Share names are unique, letter for letter. */
  ghost predicate UniqueNames(shares: seq<ShareDir>) {
    forall i, j :: 0 <= i < j < |shares| ==> shares[i].name != shares[j].name
  }

  /** No share's folder lies in another's. */
  ghost predicate NotNested(roots: Roots, shares: seq<ShareDir>) {
    forall i, j :: 0 <= i < |shares| && 0 <= j < |shares| && i != j ==>
      !(Folder(roots, shares[i]) <= Folder(roots, shares[j]))
  }

  lemma SegmentsBelow(base: seq<Segment>, piece: string)
    requires AreNames(base)
    ensures Segments(Show(base) + "/" + piece) == Walk(base, Split(piece))
  {
    SplitAtSlash(Show(base), piece);
    WalkConcat([], Split(Show(base)), Split(piece));
    SegmentsOfShow(base);
  }

  lemma SplitName(x: Segment)
    requires SlashFree(x)
    ensures Split(x) == [x]
  {
    FirstSegment([x]);
    SplitFull([x]);
    assert [x][1..] == [];
    assert Full([]) == "";
    hide Split, Full;
    assert x + "" == x;
    SplitPrepend(x);
    TailsEqual("", Split(x), [x]);
  }

  lemma {:induction false} NonEmptyNames(front: seq<Segment>, names: seq<Segment>)
    requires AreNames(names)
    ensures NonEmpty(front + names) == NonEmpty(front) + names
  {
    if |names| == 0 {
      assert front + names == front;
    } else {
      hide NonEmpty;
      var some, last := names[..|names| - 1], names[|names| - 1];
      NonEmptyNames(front, some);
      NonEmptyLast(front + some, last);
      assert front + names == (front + some) + [last];
    }
  }

  lemma NonEmptyLast(front: seq<Segment>, name: Segment)
    requires IsName(name)
    ensures NonEmpty(front + [name]) == NonEmpty(front) + [name]
  {
    assert (front + [name])[..|front|] == front;
  }

  lemma PartsOfFull(segs: seq<Segment>)
    requires AreNames(segs)
    ensures Parts(Full(segs)) == segs && Parts(Show(segs)) == segs
  {
    SplitFull(segs);
    NonEmptyNames([""], segs);
    assert NonEmpty([""]) == [] by {
      assert [""][..0] == [];
    }
    if segs == [] {
      SplitPrepend("");
      assert ["", ""][..1] == [""];
    }
  }

  lemma ResolveName(base: string, name: Segment)
    requires IsName(name)
    ensures Segments(Resolve(base, name)) == Segments(base) + [name]
  {
    SplitAppend(base, name);
    assert (Split(base) + [name])[..|Split(base)|] == Split(base);
    SegmentsOfShow(Segments(base + "/" + name));
  }

  /** Whatever the strings of a share are, its base is the text of its folder. */
  lemma BaseIsFolder(roots: Roots, share: ShareDir)
    ensures BaseOf(roots, share) == Show(Folder(roots, share))
    ensures IsName(share.name) ==> Folder(roots, share) != []
  {
    var root := if share.volume != "" then Resolve(roots.volumes, share.volume) else roots.files;
    var piece := if share.name != "" && share.name[0] == '/' then share.name else root + "/" + share.name;
    SegmentsOfShow(Segments(piece));
    if IsName(share.name) {
      ResolveName(root, share.name);
    }
  }

  /** With real names for share and volume the folder is where one would look for it. */
  lemma FolderOfNames(roots: Roots, share: ShareDir)
    requires IsName(share.name) && (share.volume != "" ==> IsName(share.volume))
    ensures Folder(roots, share) ==
      if share.volume != "" then Segments(roots.volumes) + [share.volume, share.name]
      else Segments(roots.files) + [share.name]
  {
    hide Segments, Resolve;
    if share.volume != "" {
      ResolveName(roots.volumes, share.volume);
      ResolveName(Resolve(roots.volumes, share.volume), share.name);
    } else {
      ResolveName(roots.files, share.name);
    }
  }

  lemma SplitJoin(segs: seq<Segment>)
    requires AreNames(segs) && |segs| > 0
    ensures Split(Join(segs)) == segs && Join(segs) != ""
  {
    FirstSegment(segs);
    SplitFull(segs);
    hide Split, Full;
    assert IsName(segs[0]);
    SplitPrepend(Join(segs));
    TailsEqual("", Split(Join(segs)), segs);
  }

  /** resolve(base, "./" + rest) stays below the base. */
  lemma ResolveBelow(base: seq<Segment>, rest: seq<Segment>)
    requires AreNames(base) && AreNames(rest) && base != [] && rest != []
    ensures Resolve(Full(base), "." + "/" + Join(rest)) == Full(base + rest)
  {
    hide Split, Full, Join, AreNames, Segments;
    SplitJoin(rest);
    SegmentsBelow(base, "." + "/" + Join(rest));
    SplitAtSlash(".", Join(rest));
    SplitName(".");
    WalkConcat(base, ["."], rest);
    assert Walk(base, ["."]) == base by {
      assert ["."][..0] == [];
    }
    WalkNames(base, rest);
  }

  // ----- The three laws -------------------------------------------------------------------------

  /** Where a virtual path leads: the folder of the share named first, and the rest below it, whatever
      strings the table holds.  The escape check never fires. */
  lemma ResolveSafeIsInside(roots: Roots, shares: seq<ShareDir>, path: string)
    ensures var segs, r := Segments(path), ResolveSafe(roots, shares, path);
      r == if '\0' in NormalizeVirtual(path) then Err(InvalidPath)
           else if segs == [] then Err(RootIsNotAFolder)
           else match FindShare(shares, segs[0])
                case None => Err(NoSuchShare)
                case Some(share) => Ok(Full(Folder(roots, share) + segs[1..]))
  {
    hide Segments, NormalizeVirtual, Parts, Full, Show, Join, BaseOf, Folder, Resolve, AreNames, FindShare;
    NormalForm(path);
    PartsOfFull(Segments(path));
    var segs := Segments(path);
    if segs != [] && FindShare(shares, segs[0]).Some? {
      var share := FindShare(shares, segs[0]).value;
      FoundIsNamed(segs, share);
      BaseIsFolder(roots, share);
      BaseIsFull(roots, share);
      RestIsNamed(segs);
      TargetBelow(Folder(roots, share), segs[1..]);
    }
  }

  lemma FoundIsNamed(segs: seq<Segment>, share: ShareDir)
    requires AreNames(segs) && segs != [] && share.name == segs[0]
    ensures IsName(share.name)
  {}

  lemma RestIsNamed(segs: seq<Segment>)
    requires AreNames(segs) && segs != []
    ensures AreNames(segs[1..])
  {}

  lemma BaseIsFull(roots: Roots, share: ShareDir)
    requires IsName(share.name)
    ensures BaseOf(roots, share) == Full(Folder(roots, share))
  {
    hide Folder, BaseOf, Full;
    BaseIsFolder(roots, share);
  }

  lemma TargetBelow(folder: seq<Segment>, rest: seq<Segment>)
    requires AreNames(folder) && AreNames(rest) && folder != []
    ensures (if Join(rest) != "" then Resolve(Full(folder), "." + "/" + Join(rest)) else Full(folder))
      == Full(folder + rest)
    ensures Full(folder + rest) == Full(folder) || Full(folder) + "/" <= Full(folder + rest)
  {
    if rest == [] {
      assert folder + rest == folder;
    } else {
      SplitJoin(rest);
      ResolveBelow(folder, rest);
      BelowStartsWith(folder, folder + rest);
    }
  }

  lemma FindShareAt(shares: seq<ShareDir>, k: nat)
    requires k < |shares| && UniqueNames(shares)
    ensures FindShare(shares, shares[k].name) == Some(shares[k])
  {
    var r := FindShare(shares, shares[k].name);
    assert shares[k] in shares;
    var j :| 0 <= j < |shares| && shares[j] == r.value;
  }

  lemma PrefixesComparable<T>(a: seq<T>, b: seq<T>, s: seq<T>)
    ensures a <= s && b <= s ==> a <= b || b <= a
  {}

  /** Which share a real path is shown under. */
  lemma {:induction false} VirtualInShare(roots: Roots, shares: seq<ShareDir>, k: nat, segs: seq<Segment>)
    requires NotNested(roots, shares) && k < |shares| && IsName(shares[k].name)
    requires AreNames(segs) && Folder(roots, shares[k]) <= segs
    ensures VirtualIn(roots, shares, Full(segs)) == Show([shares[k].name] + segs[|Folder(roots, shares[k])|..])
  {
    hide Folder, VirtualIn, Full;
    if k == 0 {
      var folder := Folder(roots, shares[0]);
      assert segs == folder + segs[|folder|..];
      ShownUnder(roots, shares, segs[|folder|..]);
    } else {
      OthersAreSkipped(roots, shares, k, segs);
      NotNestedRest(roots, shares);
      hide NotNested;
      VirtualInShare(roots, shares[1..], k - 1, segs);
    }
  }

  lemma NotNestedRest(roots: Roots, shares: seq<ShareDir>)
    requires NotNested(roots, shares) && |shares| > 0
    ensures NotNested(roots, shares[1..])
  {
    hide Folder;
  }

  lemma OthersAreSkipped(roots: Roots, shares: seq<ShareDir>, k: nat, segs: seq<Segment>)
    requires NotNested(roots, shares) && 0 < k < |shares| && AreNames(segs) && Folder(roots, shares[k]) <= segs
    ensures segs != [] && VirtualIn(roots, shares, Full(segs)) == VirtualIn(roots, shares[1..], Full(segs))
  {
    var folder, owner := Folder(roots, shares[0]), Folder(roots, shares[k]);
    BaseIsFolder(roots, shares[0]);
    assert !(folder <= owner) && !(owner <= folder);
    hide Folder, BaseOf, NotNested;
    PrefixesComparable(folder, owner, segs);
    StartsWithIsBelow(folder, segs);
    if Full(segs) == Full(folder) {
      ShowInjective(segs, folder);
    }
  }

  lemma ShownUnder(roots: Roots, shares: seq<ShareDir>, rest: seq<Segment>)
    requires |shares| > 0 && IsName(shares[0].name) && AreNames(rest)
    ensures VirtualIn(roots, shares, Full(Folder(roots, shares[0]) + rest)) == Show([shares[0].name] + rest)
  {
    var folder, name := Folder(roots, shares[0]), shares[0].name;
    BaseIsFolder(roots, shares[0]);
    FullConcat([name], rest);
    FullOne(name);
    hide Folder, BaseOf;
    if rest == [] {
      assert folder + rest == folder;
      assert "/" + name + Full(rest) == "/" + name;
    } else {
      ShownDeeper(roots, shares, folder, rest);
    }
  }

  lemma ShownDeeper(roots: Roots, shares: seq<ShareDir>, folder: seq<Segment>, rest: seq<Segment>)
    requires |shares| > 0 && AreNames(folder) && AreNames(rest) && rest != []
    requires BaseOf(roots, shares[0]) == Full(folder)
    ensures VirtualIn(roots, shares, Full(folder + rest)) == "/" + shares[0].name + Full(rest)
  {
    BelowStartsWith(folder, folder + rest);
    FullConcat(folder, rest);
    PartsOfFull(rest);
    FirstSegment(rest);
    hide Full, Parts, Join, BaseOf, AreNames;
    PrefixCat(Full(folder), Full(rest), []);
    PrefixCat("/" + shares[0].name, "/", Join(rest));
  }

  /** A real path inside a share with a real name is shown under that name. */
  lemma ShownInside(roots: Roots, shares: seq<ShareDir>, k: nat, rest: seq<Segment>)
    requires NotNested(roots, shares) && k < |shares| && IsName(shares[k].name) && AreNames(rest)
    ensures ToVirtual(roots, shares, Full(Folder(roots, shares[k]) + rest)) == Show([shares[k].name] + rest)
    ensures AreNames([shares[k].name] + rest)
  {
    hide Segments, VirtualIn, Folder, NotNested, Full, BaseOf;
    var folder := Folder(roots, shares[k]);
    BaseIsFolder(roots, shares[k]);
    SegmentsOfShow(folder + rest);
    VirtualInShare(roots, shares, k, folder + rest);
    assert (folder + rest)[|folder|..] == rest;
  }

  /** Going to the real path and back gives the normal form of the virtual path. */
  lemma VirtualRoundTrip(roots: Roots, shares: seq<ShareDir>, path: string)
    requires NotNested(roots, shares) && ResolveSafe(roots, shares, path).Ok?
    ensures ToVirtual(roots, shares, ResolveSafe(roots, shares, path).value) == NormalizeVirtual(path)
  {
    hide ToVirtual, Segments, NormalizeVirtual, ResolveSafe, Full, Show, Folder, NotNested, FindShare;
    ResolveSafeIsInside(roots, shares, path);
    var segs := Segments(path);
    var share := FindShare(shares, segs[0]).value;
    var k :| 0 <= k < |shares| && shares[k] == share;
    ShownInside(roots, shares, k, segs[1..]);
    assert [segs[0]] + segs[1..] == segs;
    NormalForm(path);
  }

  /** A real path inside a share is reached from the virtual path it is shown as exactly when the share's
      name is the name of a folder: no virtual path at all leads into any other share. */
  lemma RealRoundTrip(roots: Roots, shares: seq<ShareDir>, k: nat, rest: seq<Segment>)
    requires UniqueNames(shares) && NotNested(roots, shares) && k < |shares| && AreNames(rest)
    requires '\0' !in Show([shares[k].name] + rest)
    ensures var target := Full(Folder(roots, shares[k]) + rest);
      ResolveSafe(roots, shares, ToVirtual(roots, shares, target)) == Ok(target) <==> IsName(shares[k].name)
  {
    hide ToVirtual, Segments, NormalizeVirtual, ResolveSafe, Full, Show, Folder, NotNested, FindShare;
    var target := Full(Folder(roots, shares[k]) + rest);
    if IsName(shares[k].name) {
      var shown := [shares[k].name] + rest;
      ShownInside(roots, shares, k, rest);
      SegmentsOfShow(shown);
      NormalForm(Show(shown));
      ResolveSafeIsInside(roots, shares, Show(shown));
      FindShareAt(shares, k);
      assert shown[1..] == rest;
    } else if ResolveSafe(roots, shares, ToVirtual(roots, shares, target)) == Ok(target) {
      OnlyNamedSharesAreReached(roots, shares, k, rest, ToVirtual(roots, shares, target));
    }
  }

  /** A share called "a/b", which only a restored backup can make: the path its folder is shown as does not
      lead there. */
  lemma SlashedShareIsUnreachable(roots: Roots)
    ensures var share := ShareDir("a/b", "");
      var target := Full(Folder(roots, share));
      ResolveSafe(roots, [share], ToVirtual(roots, [share], target)) != Ok(target)
  {
    var share := ShareDir("a/b", "");
    assert share.name[1] == '/' && !IsName(share.name);
    assert Show([share.name]) == "/a/b" by {
      assert [share.name][..0] == [];
      assert Full([]) + "/" + "a/b" == "/a/b";
    }
    hide Folder, ToVirtual, ResolveSafe, Full, Show, IsName;
    RealRoundTrip(roots, [share], 0, []);
    assert Folder(roots, share) + [] == Folder(roots, share);
    assert [share.name] + [] == [share.name];
  }

  /** A real path inside no share is shown as the root. */
  lemma {:induction false} OutsideIsRoot(roots: Roots, shares: seq<ShareDir>, segs: seq<Segment>)
    requires AreNames(segs) && segs != []
    requires forall k :: 0 <= k < |shares| ==> !(Folder(roots, shares[k]) <= segs)
    ensures VirtualIn(roots, shares, Full(segs)) == "/"
  {
    hide Folder, BaseOf, AreNames;
    if |shares| > 0 {
      OutsideIsRoot(roots, shares[1..], segs);
      var folder := Folder(roots, shares[0]);
      BaseIsFolder(roots, shares[0]);
      assert !(folder <= segs);
      hide Full;
      StartsWithIsBelow(folder, segs);
      if Full(folder) == Full(segs) {
        FullInjective(folder, segs);
      }
    }
  }

  lemma OnlyNamedSharesAreReached(roots: Roots, shares: seq<ShareDir>, k: nat, rest: seq<Segment>, path: string)
    requires NotNested(roots, shares) && k < |shares| && AreNames(rest)
    requires ResolveSafe(roots, shares, path) == Ok(Full(Folder(roots, shares[k]) + rest))
    ensures IsName(shares[k].name)
  {
    hide Segments, NormalizeVirtual, ResolveSafe, Full, Show, Folder;
    ResolveSafeIsInside(roots, shares, path);
    var segs := Segments(path);
    var share := FindShare(shares, segs[0]).value;
    var j :| 0 <= j < |shares| && shares[j] == share;
    var here, there := Folder(roots, shares[k]) + rest, Folder(roots, shares[j]) + segs[1..];
    FullInjective(here, there);
    assert Folder(roots, shares[k]) <= here && Folder(roots, shares[j]) <= here;
    PrefixesComparable(Folder(roots, shares[k]), Folder(roots, shares[j]), here);
  }

  lemma FullInjective(a: seq<Segment>, b: seq<Segment>)
    requires AreNames(a) && AreNames(b) && Full(a) == Full(b)
    ensures a == b
  {
    if a != [] && b != [] {
      ShowInjective(a, b);
    } else {
      hide AreNames;
      assert a != [] ==> Full(a) != "";
      assert b != [] ==> Full(b) != "";
    }
  }
}
