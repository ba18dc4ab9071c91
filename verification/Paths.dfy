/** Paths of archive members and of files on disk: `_normalise`, and the POSIX
    `os.path` functions that a restore uses to place and to check a file. */
module Paths {
  import opened Text

  /** A path segment that names an entry of its directory. */
  predicate GoodSegment(s: string) {
    s != "" && s != "." && s != ".." && '/' !in s
  }

  predicate AllGood(segments: seq<string>) {
    forall s <- segments :: GoodSegment(s)
  }

  // ------------------------------------------------------------- normalisation

  /** `path.replace("\\", "/")`. */
  function Slashes(p: string): (r: string)
    ensures |r| == |p| && '\\' !in r
    ensures '\\' !in p ==> r == p
  {
    seq(|p|, i requires 0 <= i < |p| => if p[i] == '\\' then '/' else p[i])
  }

  predicate HasDrive(s: string) {
    |s| >= 2 && ('A' <= s[0] <= 'Z' || 'a' <= s[0] <= 'z') && s[1] == ':'
  }

  /** The segments that are neither empty nor a dot. */
  function Kept(parts: seq<string>): (r: seq<string>)
    ensures forall s <- r :: s in parts && s != "" && s != "."
  {
    if parts == [] then []
    else
      var init, last := Kept(parts[..|parts| - 1]), parts[|parts| - 1];
      if last == "" || last == "." then init else init + [last]
  }

  /** `_normalise`: empty for a path that could lead outside. */
  function Normalise(path: string): string {
    var cleaned := Strip(Slashes(path));
    if cleaned == "" || cleaned[0] == '/' || HasDrive(cleaned) || ".." in Split(cleaned, '/') then ""
    else Join(Kept(Split(cleaned, '/')), "/")
  }

  method NormalisePath(path: string) returns (r: string)
    ensures r == Normalise(path)
  {
    var cleaned := Strip(Slashes(path));
    if cleaned == "" || cleaned[0] == '/' || HasDrive(cleaned) { return ""; }
    var segments := [];
    var parts := Split(cleaned, '/');
    for i := 0 to |parts|
      invariant segments == Kept(parts[..i]) && ".." !in parts[..i]
    {
      assert parts[..i + 1][..i] == parts[..i];
      if parts[i] == ".." { return ""; }
      if parts[i] != "" && parts[i] != "." {
        segments := segments + [parts[i]];
      }
    }
    assert parts[..|parts|] == parts;
    return Join(segments, "/");
  }

  lemma {:induction false} JoinGoodNonEmpty(segments: seq<string>)
    requires AllGood(segments) && segments != []
    ensures segments[0] != "" && Join(segments, "/") != "" && Join(segments, "/")[0] == segments[0][0]
  {
    assert GoodSegment(segments[0]);
  }

  lemma SplitGood(segments: seq<string>)
    requires AllGood(segments) && segments != []
    ensures Split(Join(segments, "/"), '/') == segments
  {
    assert forall s <- segments :: GoodSegment(s) && '/' !in s;
    SplitJoin(segments, '/');
  }

  lemma {:induction false} KeptAll(parts: seq<string>)
    requires AllGood(parts)
    ensures Kept(parts) == parts
  {
    if parts != [] {
      var init, last := parts[..|parts| - 1], parts[|parts| - 1];
      assert forall s <- init :: s in parts;
      assert GoodSegment(last);
      KeptAll(init);
    }
  }

  lemma {:induction false} SplitAvoids(s: string, sep: char, c: char)
    requires c !in s
    ensures forall p <- Split(s, sep) :: c !in p
  {
    if s != "" {
      SplitAvoids(s[1..], sep, c);
    }
  }

  /** Whatever a member's path is, what is left of it is empty or made of good
      segments: it cannot climb, start over, or hold a backslash. */
  lemma NormaliseGood(path: string)
    ensures var r := Normalise(path); r != "" ==> AllGood(Split(r, '/')) && '\\' !in r
  {
    var r, cleaned := Normalise(path), Strip(Slashes(path));
    if r != "" {
      var parts := Split(cleaned, '/');
      var kept := Kept(parts);
      StripIsTrimmed(Slashes(path));
      SplitAvoids(cleaned, '/', '\\');
      forall s <- kept ensures GoodSegment(s) && '\\' !in s {
        assert s in parts;
      }
      SplitGood(kept);
      JoinAvoids(kept, "/", '\\');
    }
  }

  /** The paths that `_normalise` returns unchanged. */
  predicate Benign(p: string) {
    && p != "" && Trimmed(p) && '\\' !in p && AllGood(Split(p, '/'))
    && !(|p| >= 2 && ('A' <= p[0] <= 'Z' || 'a' <= p[0] <= 'z') && p[1] == ':')
  }

  lemma FirstNotSlash(p: string)
    requires p != "" && AllGood(Split(p, '/'))
    ensures p[0] != '/'
  {
    assert p[0] == '/' ==> Split(p, '/')[0] == "";
    assert GoodSegment(Split(p, '/')[0]);
  }

  lemma BenignIsFixed(p: string)
    requires Benign(p)
    ensures Normalise(p) == p
  {
    StripTrimmed(p);
    FirstNotSlash(p);
    KeptAll(Split(p, '/'));
    JoinSplit(p, '/');
  }

  lemma SlashesAfter(head: string, s: string)
    requires '\\' !in head
    ensures Slashes(head + s) == head + Slashes(s)
  {}

  /** A backslash separates as a slash does. */
  lemma BackslashSeparates(a: string, b: string)
    ensures Normalise(a + ['\\'] + b) == Normalise(a + ['/'] + b)
  {
    assert Slashes(a + ['\\'] + b) == Slashes(a + ['/'] + b);
  }

  /** A path that names a drive is refused, whatever follows. */
  lemma DrivesRefused(letter: char, rest: string)
    requires 'A' <= letter <= 'Z' || 'a' <= letter <= 'z'
    ensures Normalise([letter] + ":" + rest) == ""
  {
    var head := [letter] + ":";
    SlashesAfter(head, rest);
    StripRightAfter(head, Slashes(rest));
    assert StripLeft(head + Slashes(rest)) == head + Slashes(rest);
  }

  lemma {:induction false} KeptShortens(parts: seq<string>)
    ensures |Join(Kept(parts), "/")| <= |Join(parts, "/")|
  {
    if |parts| > 1 {
      var init, last := parts[..|parts| - 1], parts[|parts| - 1];
      assert parts == init + [last];
      JoinConcat(init, [last], "/");
      KeptShortens(init);
      var kept := Kept(init);
      if kept == [] {
        assert [] + [last] == [last];
      } else {
        JoinConcat(kept, [last], "/");
      }
    } else if |parts| == 1 {
      assert parts[..0] == [] && [] + [parts[0]] == parts;
    }
  }

  lemma StripWhole(s: string)
    requires |Strip(s)| >= |s|
    ensures Strip(s) == s
  {
    StripLeftTrims(s);
    StripRightTrims(StripLeft(s));
  }

  /** Exactly the benign paths are left alone. */
  lemma NormaliseFixedIff(p: string)
    requires p != ""
    ensures Normalise(p) == p <==> Benign(p)
  {
    if Benign(p) {
      BenignIsFixed(p);
    }
    if Normalise(p) == p {
      NormaliseGood(p);
      var cleaned := Strip(p);
      KeptShortens(Split(cleaned, '/'));
      JoinSplit(cleaned, '/');
      StripWhole(p);
      StripIsTrimmed(p);
    }
  }

  lemma NormaliseShortens(p: string)
    ensures |Normalise(p)| <= |p|
  {
    var cleaned := Strip(Slashes(p));
    KeptShortens(Split(cleaned, '/'));
    JoinSplit(cleaned, '/');
    StripLeftTrims(Slashes(p));
    StripRightTrims(StripLeft(Slashes(p)));
  }

  // -------------------------------------------------------------- POSIX os.path

  predicate Absolute(p: string) {
    p != "" && p[0] == '/'
  }

  /** Exactly two leading slashes are kept, any other number becomes one. */
  predicate Doubled(p: string) {
    |p| >= 2 && p[0] == '/' && p[1] == '/' && (|p| == 2 || p[2] != '/')
  }

  function Lead(doubled: bool): string {
    if doubled then "//" else "/"
  }

  /** The component stack of `os.path.normpath` for an absolute path. */
  function Resolve(comps: seq<string>): seq<string> {
    if comps == [] then []
    else
      var stack, c := Resolve(comps[..|comps| - 1]), comps[|comps| - 1];
      if c == "" || c == "." then stack
      else if c != ".." || (stack != [] && stack[|stack| - 1] == "..") then stack + [c]
      else if stack != [] then stack[..|stack| - 1]
      else stack
  }

  /** `os.path.abspath` of an absolute path. */
  function AbsPath(p: string): string
    requires Absolute(p)
  {
    Lead(Doubled(p)) + Join(Resolve(Split(p, '/')), "/")
  }

  /** `os.path.join(root, relative)`. */
  function OsJoin(root: string, relative: string): string {
    if Absolute(relative) then relative
    else if root == "" || root[|root| - 1] == '/' then root + relative
    else root + "/" + relative
  }

  function Prefix(a: seq<string>, b: seq<string>): seq<string> {
    if a == [] || b == [] || a[0] != b[0] then [] else [a[0]] + Prefix(a[1..], b[1..])
  }

  /** `os.path.commonpath` of two absolute paths: one leading slash, always. */
  function CommonPath(a: string, b: string): string
    requires Absolute(a) && Absolute(b)
  {
    "/" + Join(Prefix(Kept(Split(a, '/')), Kept(Split(b, '/'))), "/")
  }

  lemma {:induction false} ResolveGood(comps: seq<string>)
    requires forall c <- comps :: '/' !in c
    ensures AllGood(Resolve(comps))
  {
    if comps != [] {
      var init, c := comps[..|comps| - 1], comps[|comps| - 1];
      assert forall x <- init :: x in comps;
      ResolveGood(init);
      var stack := Resolve(init);
      assert stack != [] ==> GoodSegment(stack[|stack| - 1]);
      assert stack != [] ==> forall s <- stack[..|stack| - 1] :: s in stack;
    }
  }

  lemma {:induction false} ResolveBlank(blanks: seq<string>)
    requires forall i :: 0 <= i < |blanks| ==> blanks[i] == ""
    ensures Resolve(blanks) == [] && Kept(blanks) == []
  {
    if blanks != [] {
      ResolveBlank(blanks[..|blanks| - 1]);
    }
  }

  lemma ResolveNext(comps: seq<string>, c: string)
    requires GoodSegment(c)
    ensures Resolve(comps + [c]) == Resolve(comps) + [c] && Kept(comps + [c]) == Kept(comps) + [c]
  {
    assert (comps + [c])[..|comps|] == comps;
  }

  lemma {:induction false} ResolveKept(blanks: seq<string>, segments: seq<string>)
    requires AllGood(segments) && forall i :: 0 <= i < |blanks| ==> blanks[i] == ""
    ensures Resolve(blanks + segments) == segments && Kept(blanks + segments) == segments
  {
    if segments == [] {
      assert blanks + segments == blanks;
      ResolveBlank(blanks);
    } else {
      var init, last := segments[..|segments| - 1], segments[|segments| - 1];
      assert blanks + segments == (blanks + init) + [last];
      assert segments == init + [last];
      ResolveNext(blanks + init, last);
      ResolveKept(blanks, init);
    }
  }

  /** A `..` takes back the directory named before it, and nothing at the root; a dot
      and a repeated slash mean nothing. */
  lemma ResolveSteps(comps: seq<string>, name: string)
    requires GoodSegment(name)
    ensures Resolve(comps + [name, ".."]) == Resolve(comps)
    ensures Resolve(comps + ["."]) == Resolve(comps) && Resolve(comps + [""]) == Resolve(comps)
    ensures Resolve([""] + [".."]) == []
  {
    assert (comps + [name, ".."])[..|comps| + 1] == comps + [name];
    ResolveNext(comps, name);
    assert (comps + ["."])[..|comps|] == comps && (comps + [""])[..|comps|] == comps;
    assert ([""] + [".."])[..1] == [""] && [""][..0] == [];
    assert Resolve([""]) == [];
  }

  function Blanks(doubled: bool): seq<string> {
    if doubled then ["", ""] else [""]
  }

  lemma SplitLead(doubled: bool, rest: string)
    ensures Split(Lead(doubled) + rest, '/') == Blanks(doubled) + Split(rest, '/')
  {
    var s := "/" + rest;
    assert s[1..] == rest;
    assert Split(s, '/') == [""] + Split(rest, '/');
    if doubled {
      var t := "//" + rest;
      assert t[1..] == s;
      assert Split(t, '/') == [""] + Split(s, '/');
      assert ["", ""] + Split(rest, '/') == [""] + ([""] + Split(rest, '/'));
    }
  }

  /** A clean absolute path, by its segments. */
  function Clean(doubled: bool, segments: seq<string>): string {
    Lead(doubled) + Join(segments, "/")
  }

  lemma AbsPathIsClean(p: string)
    requires Absolute(p)
    ensures AllGood(Resolve(Split(p, '/'))) && AbsPath(p) == Clean(Doubled(p), Resolve(Split(p, '/')))
  {
    ResolveGood(Split(p, '/'));
  }

  lemma CleanShape(doubled: bool, segments: seq<string>)
    requires AllGood(segments) && segments != []
    ensures Doubled(Clean(doubled, segments)) == doubled
    ensures Split(Clean(doubled, segments), '/') == Blanks(doubled) + segments
    ensures Kept(Split(Clean(doubled, segments), '/')) == segments
    ensures AbsPath(Clean(doubled, segments)) == Clean(doubled, segments)
  {
    assert GoodSegment(segments[0]);
    assert segments[0][0] in segments[0];
    JoinGoodNonEmpty(segments);
    SplitGood(segments);
    SplitLead(doubled, Join(segments, "/"));
    ResolveKept(Blanks(doubled), segments);
  }

  /** A clean root with no segments is only its slashes. */
  lemma RootSegments(doubled: bool, segments: seq<string>)
    requires AllGood(segments)
    ensures Kept(Split(Clean(doubled, segments), '/')) == segments
  {
    if segments == [] {
      SplitLead(doubled, "");
      assert Split("", '/') == [""];
      var blanks := Blanks(doubled) + [""];
      assert blanks + [] == blanks;
      ResolveKept(blanks, []);
    } else {
      CleanShape(doubled, segments);
    }
  }

  lemma JoinNotSlashEnd(segments: seq<string>)
    requires AllGood(segments) && segments != []
    ensures var s := Join(segments, "/"); s != "" && s[|s| - 1] != '/'
    decreases |segments|
  {
    JoinGoodNonEmpty(segments);
    if |segments| == 1 {
      var s := segments[0];
      assert GoodSegment(s);
      assert s[|s| - 1] in s;
    } else {
      JoinNotSlashEnd(segments[1..]);
    }
  }

  /** Joining good segments to a clean root gives the clean path below it. */
  lemma JoinBelow(doubled: bool, top: seq<string>, below: seq<string>)
    requires AllGood(top) && AllGood(below) && below != []
    ensures OsJoin(Clean(doubled, top), Join(below, "/")) == Clean(doubled, top + below)
  {
    var relative := Join(below, "/");
    JoinGoodNonEmpty(below);
    assert GoodSegment(below[0]) && below[0][0] in below[0];
    if top == [] {
      assert top + below == below;
      assert Clean(doubled, []) == Lead(doubled);
    } else {
      JoinNotSlashEnd(top);
      JoinConcat(top, below, "/");
      EndOf(Lead(doubled), Join(top, "/"));
      Regroup(Lead(doubled), Join(top, "/"), "/", relative);
    }
  }

  lemma EndOf(a: string, b: string)
    requires b != ""
    ensures (a + b)[|a + b| - 1] == b[|b| - 1]
  {}

  lemma {:induction false} PrefixOfExtension(top: seq<string>, below: seq<string>)
    ensures Prefix(top + below, top) == top
  {
    if top != [] {
      assert (top + below)[1..] == top[1..] + below;
      PrefixOfExtension(top[1..], below);
      assert top == [top[0]] + top[1..];
    }
  }

  /** The place a restore gives a file, from the configured directory and a
      normalised path. */
  function Destination(directory: string, relative: string): string
    requires Absolute(directory)
  {
    var joined := OsJoin(AbsPath(directory), relative);
    if Absolute(joined) then AbsPath(joined) else joined
  }

  /** The check before the file is written. */
  predicate Inside(directory: string, relative: string)
    requires Absolute(directory)
  {
    var root, destination := AbsPath(directory), Destination(directory, relative);
    Absolute(root) && Absolute(destination) && CommonPath(destination, root) == root
  }

  /** A normalised path lands strictly below the root, at the very segments it
      names. */
  lemma LandsBelow(directory: string, relative: string)
    requires Absolute(directory) && relative != "" && AllGood(Split(relative, '/'))
    ensures Destination(directory, relative)
         == Clean(Doubled(directory), Resolve(Split(directory, '/')) + Split(relative, '/'))
  {
    var top, below := Resolve(Split(directory, '/')), Split(relative, '/');
    AbsPathIsClean(directory);
    JoinSplit(relative, '/');
    JoinBelow(Doubled(directory), top, below);
    CleanShape(Doubled(directory), top + below);
  }

  /** The check passes for every normalised path, exactly when the configured
      directory does not begin with exactly two slashes. */
  lemma InsideIff(directory: string, relative: string)
    requires Absolute(directory) && relative != "" && AllGood(Split(relative, '/'))
    ensures Inside(directory, relative) <==> !Doubled(directory)
  {
    var top, below := Resolve(Split(directory, '/')), Split(relative, '/');
    var d := Doubled(directory);
    AbsPathIsClean(directory);
    LandsBelow(directory, relative);
    RootSegments(d, top);
    RootSegments(d, top + below);
    PrefixOfExtension(top, below);
    assert CommonPath(Clean(d, top + below), Clean(d, top)) == Clean(false, top);
    LeadsDiffer(Join(top, "/"));
  }

  lemma LeadsDiffer(s: string)
    ensures "/" + s != "//" + s
  {
    assert |"/" + s| != |"//" + s|;
  }
}
