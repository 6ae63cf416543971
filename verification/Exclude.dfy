/** The perimeter of a scan: which patterns are compiled, recorded and matched (internal/exclude/matcher.go). */
module Exclude {
  import opened Bytes
  import opened Canon
  import opened ScanEntry
  import opened Walk

  const HASH: byte := 35

  /** What the Go library does to a pattern: filepath.Clean, strings.TrimSpace, filepath.Match and filepath.Base. */
  datatype Library = Library(
    clean: Bytes -> Path,
    trim: Bytes -> Bytes,
    glob: (Bytes, Bytes) -> bool,
    malformed: Bytes -> bool,
    base: Path -> Bytes)

  ghost predicate Sound(g: Library) {
    && (forall p :: g.trim(g.trim(p)) == g.trim(p))
    && (forall p :: g.clean(g.clean(p)) == g.clean(p) && g.clean(p) != [])
  }

  /** What a compiled set holds, volatile directories apart. */
  datatype Perimeter = Perimeter(
    root: Option<Path>,
    prefixes: seq<Path>,
    pathGlobs: seq<Bytes>,
    nameGlobs: seq<Bytes>,
    patterns: seq<Bytes>,
    dropped: seq<Bytes>)

  predicate IsGlob(p: Bytes) { 42 in p || 63 in p || 91 in p }

  predicate IsAbsolute(p: Bytes) { p != [] && p[0] == SLASH }

  predicate IsComment(p: Bytes) { p != [] && p[0] == HASH }

  /** Component-wise prefix test, as the source writes it. */
  predicate Under(path: Path, prefix: Path) {
    prefix == ROOT
    || (|prefix| <= |path| && path[..|prefix|] == prefix && (|path| == |prefix| || path[|prefix|] == SLASH))
  }

  lemma UnderIsSubtree(path: Path, prefix: Path)
    requires IsAbsolute(path)
    ensures Under(path, prefix) <==> AtOrBelow(path, prefix)
  {
  }

  predicate Matches(g: Library, s: Perimeter, path: Path) {
    || (exists p | p in s.prefixes :: Under(path, p))
    || (exists p | p in s.pathGlobs :: g.glob(p, path))
    || (exists p | p in s.nameGlobs :: g.glob(p, g.base(path)))
  }

  /** A prefix that contains the scan root cannot apply. */
  predicate CoversRoot(g: Library, root: Option<Path>, p: Bytes) {
    !IsGlob(p) && IsAbsolute(p) && root.Some? && Under(root.value, g.clean(p))
  }

  function AddOne(g: Library, s: Perimeter, p: Bytes): Option<Perimeter> {
    if CoversRoot(g, s.root, p) then Some(s.(dropped := s.dropped + [p]))
    else if IsGlob(p) && g.malformed(p) then None
    else
      var t := s.(patterns := s.patterns + [p]);
      if !IsAbsolute(p) then Some(t.(nameGlobs := t.nameGlobs + [p]))
      else if IsGlob(p) then Some(t.(pathGlobs := t.pathGlobs + [p]))
      else Some(t.(prefixes := t.prefixes + [g.clean(p)]))
  }

  /** One line of the operator's patterns; blank lines and comments are dropped. */
  function AddLine(g: Library, s: Perimeter, line: Bytes): Option<Perimeter> {
    var p := g.trim(line);
    if p == [] || IsComment(p) then Some(s) else AddOne(g, s, p)
  }

  /** One pattern osfp computed itself; skipped when something already matches it. */
  function AddAutoLine(g: Library, s: Perimeter, line: Bytes): Option<Perimeter> {
    var p := g.trim(line);
    if p == [] || Matches(g, s, p) then Some(s) else AddOne(g, s, p)
  }

  function Add(g: Library, s: Perimeter, lines: seq<Bytes>): Option<Perimeter>
    decreases |lines|
  {
    if lines == [] then Some(s)
    else
      var t := AddLine(g, s, lines[0]);
      if t.None? then None else Add(g, t.value, lines[1..])
  }

  function AddAuto(g: Library, s: Perimeter, lines: seq<Bytes>): Option<Perimeter>
    decreases |lines|
  {
    if lines == [] then Some(s)
    else
      var t := AddAutoLine(g, s, lines[0]);
      if t.None? then None else AddAuto(g, t.value, lines[1..])
  }

  function Empty(root: Option<Path>): Perimeter { Perimeter(root, [], [], [], [], []) }

  function CleanRoot(g: Library, root: Bytes): Option<Path> {
    if root == [] then None else Some(g.clean(root))
  }

  /** New, given the built-in list (empty for NoDefaults). */
  function Compile(g: Library, root: Bytes, defaults: seq<Bytes>, patterns: seq<Bytes>,
                   auto: seq<Bytes>): Option<Perimeter> {
    var a := Add(g, Empty(CleanRoot(g, root)), defaults);
    if a.None? then None
    else
      var b := Add(g, a.value, patterns);
      if b.None? then None else AddAuto(g, b.value, auto)
  }

  // ---- what a set leaves out -------------------------------------------------------------

  /** What a pattern that applies leaves out: a leading slash makes it a place, the characters *, ? and [ a glob; a
      place is itself and everything under it, other patterns are matched against the whole path or the base name. */
  lemma PatternMeans(g: Library, p: Bytes, path: Path)
    ensures MatchesOne(g, p, path)
       <==> if p == [] || p[0] != 47 then g.glob(p, g.base(path))
            else if exists i :: 0 <= i < |p| && (p[i] == 42 || p[i] == 63 || p[i] == 91) then g.glob(p, path)
            else g.clean(p) == [47] || (g.clean(p) <= path
                                        && (|path| == |g.clean(p)| || path[|g.clean(p)|] == 47))
  {
  }

  /** A line that counts: neither blank nor a comment, nor a place that contains the scan root. */
  ghost predicate Applies(g: Library, root: Option<Path>, line: Bytes) {
    var p := g.trim(line);
    p != [] && p[0] != 35 && !(root.Some? && p[0] == 47
                               && (forall i | 0 <= i < |p| :: p[i] != 42 && p[i] != 63 && p[i] != 91)
                               && Under(root.value, g.clean(p)))
  }

  /** The operator's lines leave out what each of those that apply does, and no more. */
  lemma {:induction false} LinesMean(g: Library, s: Perimeter, lines: seq<Bytes>, path: Path)
    requires Add(g, s, lines).Some?
    ensures Add(g, s, lines).value.root == s.root
    ensures Matches(g, Add(g, s, lines).value, path)
       <==> (|| Matches(g, s, path)
             || exists l :: l in lines && Applies(g, s.root, l) && MatchesOne(g, g.trim(l), path))
    decreases |lines|
  {
    hide Matches, MatchesOne, Under;
    if lines != [] {
      var p := g.trim(lines[0]);
      var t := AddLine(g, s, lines[0]).value;
      if p != [] && !IsComment(p) { AddOneMatches(g, s, p, path); }
      LinesMean(g, t, lines[1..], path);
      assert forall l :: l in lines <==> l == lines[0] || l in lines[1..];
    }
  }

  /** An automatic line leaves out no more than its pattern does; one that is a cleaned place without glob characters,
      not above the root, leaves out at least that place. */
  lemma {:induction false} AutoLinesMean(g: Library, s: Perimeter, lines: seq<Bytes>, path: Path)
    requires AddAuto(g, s, lines).Some?
    ensures Matches(g, s, path) ==> Matches(g, AddAuto(g, s, lines).value, path)
    ensures Matches(g, AddAuto(g, s, lines).value, path) ==>
              Matches(g, s, path) || exists l :: l in lines && g.trim(l) != [] && MatchesOne(g, g.trim(l), path)
    ensures path in lines && PlainPath(g, path) && !CoversRoot(g, s.root, path) ==>
              Matches(g, AddAuto(g, s, lines).value, path)
    decreases |lines|
  {
    hide Matches, MatchesOne, CoversRoot, AddOne;
    if lines != [] {
      var p := g.trim(lines[0]);
      var t := AddAutoLine(g, s, lines[0]).value;
      if p != [] && !Matches(g, s, p) {
        AddOneMatches(g, s, p, path);
        KeepsRoot(g, s, p);
      }
      if lines[0] == path && PlainPath(g, path) { PlainMatches(g, path, path); }
      AutoLinesMean(g, t, lines[1..], path);
      assert forall l :: l in lines <==> l == lines[0] || l in lines[1..];
    }
  }

  /** What New's set leaves out: what a default or a pattern of the operator's that applies does, all of it, and of what
      the automatic paths do at least the paths themselves. */
  lemma CompileMeans(g: Library, root: Bytes, defaults: seq<Bytes>, patterns: seq<Bytes>, auto: seq<Bytes>, path: Path)
    requires Compile(g, root, defaults, patterns, auto).Some?
    ensures var s := Compile(g, root, defaults, patterns, auto).value;
            var r := if root == [] then None else Some(g.clean(root));
            && ((exists l :: l in defaults + patterns && Applies(g, r, l) && MatchesOne(g, g.trim(l), path)) ==>
                  Matches(g, s, path))
            && (path in auto && PlainPath(g, path) && !CoversRoot(g, r, path) ==> Matches(g, s, path))
            && (Matches(g, s, path) ==>
                  || (exists l :: l in defaults + patterns && Applies(g, r, l) && MatchesOne(g, g.trim(l), path))
                  || (exists l :: l in auto && g.trim(l) != [] && MatchesOne(g, g.trim(l), path)))
  {
    hide Matches, MatchesOne, CoversRoot, Add, AddAuto, Applies;
    var e := Empty(CleanRoot(g, root));
    var a := Add(g, e, defaults).value;
    var b := Add(g, a, patterns).value;
    LinesMean(g, e, defaults, path);
    LinesMean(g, a, patterns, path);
    AutoLinesMean(g, b, auto, path);
    NothingMatched(g, CleanRoot(g, root), path);
    assert forall l :: l in defaults + patterns <==> l in defaults || l in patterns;
  }

  lemma NothingMatched(g: Library, root: Option<Path>, path: Path)
    ensures !Matches(g, Empty(root), path) && Empty(root).root == root
  {
  }

  /** Lines are refused exactly for a malformed glob among them. */
  lemma {:induction false} LinesRefused(g: Library, s: Perimeter, lines: seq<Bytes>)
    ensures Add(g, s, lines).None?
       <==> exists l :: && l in lines && g.trim(l) != [] && g.trim(l)[0] != 35 && g.malformed(g.trim(l))
                        && exists i :: 0 <= i < |g.trim(l)| && (var c := g.trim(l)[i]; c == 42 || c == 63 || c == 91)
    decreases |lines|
  {
    if lines != [] {
      var p := g.trim(lines[0]);
      assert IsGlob(p) <==> exists i :: 0 <= i < |p| && (var c := p[i]; c == 42 || c == 63 || c == 91);
      hide IsGlob, Under;
      if AddLine(g, s, lines[0]).Some? { LinesRefused(g, AddLine(g, s, lines[0]).value, lines[1..]); }
      assert forall l :: l in lines <==> l == lines[0] || l in lines[1..];
    }
  }

  // ---- recompiling what was recorded -----------------------------------------------------

  /** A pattern that addOne classifies again as it did before. */
  ghost predicate Lasting(g: Library, root: Option<Path>, p: Bytes) {
    p != [] && g.trim(p) == p && !CoversRoot(g, root, p) && !(IsGlob(p) && g.malformed(p))
  }

  /** How a set looks once every pattern in it has been classified: the three lists are determined by patterns. */
  ghost predicate Recorded(g: Library, s: Perimeter) {
    && (forall p | p in s.patterns :: Lasting(g, s.root, p))
    && Replay(g, s.root, s.patterns) == s.(dropped := [])
  }

  /** Adding patterns with neither the comment nor the coverage test. */
  function Replay(g: Library, root: Option<Path>, ps: seq<Bytes>): Perimeter {
    if ps == [] then Empty(root)
    else
      var p, s := ps[|ps| - 1], Replay(g, root, ps[..|ps| - 1]);
      var t := s.(patterns := s.patterns + [p]);
      if !IsAbsolute(p) then t.(nameGlobs := t.nameGlobs + [p])
      else if IsGlob(p) then t.(pathGlobs := t.pathGlobs + [p])
      else t.(prefixes := t.prefixes + [g.clean(p)])
  }

  lemma AddOneRecorded(g: Library, s: Perimeter, p: Bytes)
    requires Recorded(g, s) && p != [] && g.trim(p) == p && AddOne(g, s, p).Some?
    ensures Recorded(g, AddOne(g, s, p).value) && AddOne(g, s, p).value.root == s.root
    ensures AddOne(g, s, p).value.patterns == s.patterns || AddOne(g, s, p).value.patterns == s.patterns + [p]
  {
    hide IsGlob, IsAbsolute, Under;
    if !CoversRoot(g, s.root, p) {
      var ps := s.patterns + [p];
      assert ps[..|ps| - 1] == s.patterns;
    }
  }

  lemma {:induction false} AddRecorded(g: Library, s: Perimeter, lines: seq<Bytes>)
    requires Sound(g) && Recorded(g, s) && Add(g, s, lines).Some?
    requires forall p | p in s.patterns :: !IsComment(p)
    ensures Recorded(g, Add(g, s, lines).value) && Add(g, s, lines).value.root == s.root
    ensures forall p | p in Add(g, s, lines).value.patterns :: !IsComment(p)
    decreases |lines|
  {
    hide Recorded, AddOne, IsComment;
    if lines != [] {
      var p := g.trim(lines[0]);
      if p != [] && !IsComment(p) { AddOneRecorded(g, s, p); }
      AddRecorded(g, AddLine(g, s, lines[0]).value, lines[1..]);
    }
  }

  lemma {:induction false} AddAutoRecorded(g: Library, s: Perimeter, lines: seq<Bytes>)
    requires Sound(g) && Recorded(g, s) && AddAuto(g, s, lines).Some?
    ensures Recorded(g, AddAuto(g, s, lines).value) && AddAuto(g, s, lines).value.root == s.root
    decreases |lines|
  {
    hide Recorded, AddOne, Matches;
    if lines != [] {
      var p := g.trim(lines[0]);
      if p != [] && !Matches(g, s, p) { AddOneRecorded(g, s, p); }
      AddAutoRecorded(g, AddAutoLine(g, s, lines[0]).value, lines[1..]);
    }
  }

  /** An automatic path is recorded only when nothing recorded before it matches it. */
  lemma {:induction false} AutoRecordsNew(g: Library, s: Perimeter, lines: seq<Bytes>, i: nat)
    requires Sound(g) && Recorded(g, s) && AddAuto(g, s, lines).Some?
    ensures var t := AddAuto(g, s, lines).value;
            && s.patterns <= t.patterns
            && (|s.patterns| <= i < |t.patterns| ==>
                  !Matches(g, Replay(g, s.root, t.patterns[..i]), t.patterns[i]))
    decreases |lines|
  {
    hide Matches, Replay, AddOne;
    if lines != [] {
      var p := g.trim(lines[0]);
      var t := AddAutoLine(g, s, lines[0]).value;
      if p != [] && !Matches(g, s, p) {
        AddOneRecorded(g, s, p);
        SameMatches(g, s, Replay(g, s.root, s.patterns), p);
      }
      AutoRecordsNew(g, t, lines[1..], i);
      var all := AddAuto(g, s, lines).value.patterns;
      if i == |s.patterns| < |t.patterns| { assert all[..i] == s.patterns && all[i] == t.patterns[i]; }
    }
  }

  lemma SameMatches(g: Library, s: Perimeter, t: Perimeter, path: Path)
    requires t == s.(dropped := [])
    ensures Matches(g, t, path) == Matches(g, s, path)
  {
  }

  lemma CompileRecorded(g: Library, root: Bytes, defaults: seq<Bytes>, patterns: seq<Bytes>, auto: seq<Bytes>)
    requires Sound(g) && Compile(g, root, defaults, patterns, auto).Some?
    ensures var s := Compile(g, root, defaults, patterns, auto).value; Recorded(g, s) && s.root == CleanRoot(g, root)
  {
    var e := Empty(CleanRoot(g, root));
    AddRecorded(g, e, defaults);
    AddRecorded(g, Add(g, e, defaults).value, patterns);
    AddAutoRecorded(g, Add(g, Add(g, e, defaults).value, patterns).value, auto);
  }

  /** Patterns that do not read as comments. */
  function NotComments(ps: seq<Bytes>): (r: seq<Bytes>)
    ensures |r| <= |ps|
    ensures |r| == |ps| <==> forall p | p in ps :: !IsComment(p)
    ensures |r| == |ps| ==> r == ps
  {
    if ps == [] then []
    else
      var r := NotComments(ps[..|ps| - 1]);
      assert ps == ps[..|ps| - 1] + [ps[|ps| - 1]];
      if IsComment(ps[|ps| - 1]) then r else r + [ps[|ps| - 1]]
  }

  lemma {:induction false} AddSnoc(g: Library, s: Perimeter, lines: seq<Bytes>, last: Bytes)
    ensures Add(g, s, lines + [last])
            == if Add(g, s, lines).None? then None else AddLine(g, s := Add(g, s, lines).value, line := last)
    decreases |lines|
  {
    hide AddLine;
    if lines == [] {
      assert (lines + [last])[1..] == [];
    } else {
      assert (lines + [last])[1..] == lines[1..] + [last];
      var t := AddLine(g, s, lines[0]);
      if t.Some? { AddSnoc(g, t.value, lines[1..], last); }
    }
  }

  lemma {:induction false} AddReplays(g: Library, root: Option<Path>, ps: seq<Bytes>)
    requires forall p | p in ps :: Lasting(g, root, p)
    ensures Add(g, Empty(root), ps) == Some(Replay(g, root, NotComments(ps)))
    ensures Replay(g, root, NotComments(ps)).root == root
    decreases |ps|
  {
    hide IsComment, AddLine, Lasting, Add, Replay;
    if ps == [] {
      AddNothing(g, Empty(root));
      ReplayNothing(g, root);
    } else {
      var n := |ps| - 1;
      assert ps == ps[..n] + [ps[n]];
      AddReplays(g, root, ps[..n]);
      AddSnoc(g, Empty(root), ps[..n], ps[n]);
      ReplaySnoc(g, root, NotComments(ps[..n]), ps[n]);
    }
  }

  lemma ReplaySnoc(g: Library, root: Option<Path>, ps: seq<Bytes>, p: Bytes)
    requires Lasting(g, root, p) && Replay(g, root, ps).root == root
    ensures Replay(g, root, ps + [p]).root == root
    ensures AddLine(g, Replay(g, root, ps), p)
        == if IsComment(p) then Some(Replay(g, root, ps)) else Some(Replay(g, root, ps + [p]))
  {
    hide IsGlob, IsAbsolute, CoversRoot, IsComment;
    assert (ps + [p])[..|ps|] == ps;
  }

  /** Compiling the recorded patterns under the same root gives the same set, dropped prefixes apart,
      exactly when no recorded pattern reads as a comment (only an automatic one can). */
  lemma RecompileSame(g: Library, root: Bytes, defaults: seq<Bytes>, patterns: seq<Bytes>, auto: seq<Bytes>)
    requires Sound(g) && root != [] && Compile(g, root, defaults, patterns, auto).Some?
    ensures var s := Compile(g, root, defaults, patterns, auto).value;
            var again := Compile(g, g.clean(root), [], s.patterns, []);
            && again == Some(Replay(g, s.root, NotComments(s.patterns)))
            && (again == Some(s.(dropped := [])) <==> forall p | p in s.patterns :: !IsComment(p))
  {
    hide Replay, IsComment, Add, CoversRoot, Matches;
    CompileRecorded(g, root, defaults, patterns, auto);
    var s := Compile(g, root, defaults, patterns, auto).value;
    AddReplays(g, s.root, s.patterns);
    ReplayPatterns(g, s.root, NotComments(s.patterns));
    AddNothing(g, Empty(s.root));
  }

  lemma ReplayNothing(g: Library, root: Option<Path>)
    ensures Replay(g, root, []) == Empty(root)
  {
  }

  lemma AddNothing(g: Library, s: Perimeter)
    ensures Add(g, s, []) == Some(s)
  {
  }

  lemma {:induction false} ReplayPatterns(g: Library, root: Option<Path>, ps: seq<Bytes>)
    ensures Replay(g, root, ps).patterns == ps
  {
    if ps != [] {
      ReplayPatterns(g, root, ps[..|ps| - 1]);
      assert ps == ps[..|ps| - 1] + [ps[|ps| - 1]];
    }
  }

  /** So the paths left alone are the same. */
  lemma RecompileMatches(g: Library, root: Bytes, defaults: seq<Bytes>, patterns: seq<Bytes>, auto: seq<Bytes>,
                         path: Path)
    requires Sound(g) && root != [] && Compile(g, root, defaults, patterns, auto).Some?
    requires forall p | p in Compile(g, root, defaults, patterns, auto).value.patterns :: !IsComment(p)
    ensures var s := Compile(g, root, defaults, patterns, auto).value;
            var again := Compile(g, g.clean(root), [], s.patterns, []);
            again.Some? && Matches(g, again.value, path) == Matches(g, s, path)
  {
    hide Compile;
    RecompileSame(g, root, defaults, patterns, auto);
  }

  /** Automatic lines that do not read as comments, which absolute paths do not, are never recorded as one. */
  lemma {:induction false} AutoNeverComment(g: Library, s: Perimeter, lines: seq<Bytes>)
    requires AddAuto(g, s, lines).Some? && forall p | p in s.patterns :: !IsComment(p)
    requires forall i | 0 <= i < |lines| :: !IsComment(g.trim(lines[i]))
    ensures forall p | p in AddAuto(g, s, lines).value.patterns :: !IsComment(p)
    decreases |lines|
  {
    hide Matches, IsComment, CoversRoot;
    if lines != [] { AutoNeverComment(g, AddAutoLine(g, s, lines[0]).value, lines[1..]); }
  }

  /** So a set whose automatic paths are absolute can always be recompiled from what it recorded. */
  lemma AbsolutePathsRecompile(g: Library, root: Bytes, defaults: seq<Bytes>, patterns: seq<Bytes>, auto: seq<Bytes>,
                               path: Path)
    requires Sound(g) && root != [] && Compile(g, root, defaults, patterns, auto).Some?
    requires forall i | 0 <= i < |auto| :: IsAbsolute(g.trim(auto[i]))
    ensures var s := Compile(g, root, defaults, patterns, auto).value;
            var again := Compile(g, g.clean(root), [], s.patterns, []);
            again == Some(s.(dropped := [])) && Matches(g, again.value, path) == Matches(g, s, path)
  {
    var e := Empty(CleanRoot(g, root));
    assert Recorded(g, e);
    hide Add, AddAuto, Replay, Matches;
    AddRecorded(g, e, defaults);
    AddRecorded(g, Add(g, e, defaults).value, patterns);
    AutoNeverComment(g, Add(g, Add(g, e, defaults).value, patterns).value, auto);
    RecompileSame(g, root, defaults, patterns, auto);
    RecompileMatches(g, root, defaults, patterns, auto, path);
  }

  // ---- a set only grows ------------------------------------------------------------------

  lemma AddOneMatches(g: Library, s: Perimeter, p: Bytes, path: Path)
    requires AddOne(g, s, p).Some?
    ensures var t := AddOne(g, s, p).value;
            Matches(g, t, path) <==> Matches(g, s, path) || (!CoversRoot(g, s.root, p) && MatchesOne(g, p, path))
  {
    hide IsGlob, IsAbsolute, Under;
  }

  /** One pattern on its own. */
  predicate MatchesOne(g: Library, p: Bytes, path: Path) {
    if !IsAbsolute(p) then g.glob(p, g.base(path))
    else if IsGlob(p) then g.glob(p, path)
    else Under(path, g.clean(p))
  }

  lemma {:induction false} AddGrows(g: Library, s: Perimeter, lines: seq<Bytes>, path: Path)
    requires Add(g, s, lines).Some? && Matches(g, s, path)
    ensures Matches(g, Add(g, s, lines).value, path)
    decreases |lines|
  {
    hide Matches, AddOne;
    if lines != [] {
      var p := g.trim(lines[0]);
      if AddOne(g, s, p).Some? { AddOneMatches(g, s, p, path); }
      AddGrows(g, AddLine(g, s, lines[0]).value, lines[1..], path);
    }
  }

  lemma {:induction false} AddAutoGrows(g: Library, s: Perimeter, lines: seq<Bytes>, path: Path)
    requires AddAuto(g, s, lines).Some? && Matches(g, s, path)
    ensures Matches(g, AddAuto(g, s, lines).value, path)
    decreases |lines|
  {
    hide Matches, AddOne;
    if lines != [] {
      var p := g.trim(lines[0]);
      if AddOne(g, s, p).Some? { AddOneMatches(g, s, p, path); }
      AddAutoGrows(g, AddAutoLine(g, s, lines[0]).value, lines[1..], path);
    }
  }

  lemma {:induction false} AddConcat(g: Library, s: Perimeter, a: seq<Bytes>, b: seq<Bytes>)
    ensures Add(g, s, a + b) == if Add(g, s, a).None? then None else Add(g, Add(g, s, a).value, b)
    decreases |a|
  {
    hide AddLine;
    if a == [] {
      assert a + b == b;
    } else {
      assert (a + b)[1..] == a[1..] + b;
      if AddLine(g, s, a[0]).Some? { AddConcat(g, AddLine(g, s, a[0]).value, a[1..], b); }
    }
  }

  /** compare adds its own patterns to the recorded ones: everything the fingerprint left out it leaves out too. */
  lemma CompareKeepsPerimeter(g: Library, root: Bytes, defaults: seq<Bytes>, patterns: seq<Bytes>, auto: seq<Bytes>,
                              extra: seq<Bytes>, auto': seq<Bytes>, path: Path)
    requires Sound(g) && root != [] && Compile(g, root, defaults, patterns, auto).Some?
    requires var s := Compile(g, root, defaults, patterns, auto).value;
             && (forall p | p in s.patterns :: !IsComment(p))
             && Compile(g, g.clean(root), [], s.patterns + extra, auto').Some?
             && Matches(g, s, path)
    ensures Matches(g, Compile(g, g.clean(root), [], Compile(g, root, defaults, patterns, auto).value.patterns + extra,
        auto').value, path)
  {
    hide Matches, IsComment, Add, AddAuto;
    var s := Compile(g, root, defaults, patterns, auto).value;
    RecompileMatches(g, root, defaults, patterns, auto, path);
    var e := Empty(CleanRoot(g, g.clean(root)));
    AddNothing(g, e);
    AddAutoNothing(g, Add(g, e, s.patterns).value);
    AddConcat(g, e, s.patterns, extra);
    AddGrows(g, Add(g, e, s.patterns).value, extra, path);
    AddAutoGrows(g, Add(g, e, s.patterns + extra).value, auto', path);
  }

  lemma AddAutoNothing(g: Library, s: Perimeter)
    ensures AddAuto(g, s, []) == Some(s)
  {
  }

  // ---- an automatic pattern that is already matched is inert -----------------------------

  predicate PlainPath(g: Library, p: Bytes) { IsAbsolute(p) && !IsGlob(p) && g.clean(p) == p && g.trim(p) == p }

  /** Two sets that leave out the same paths on a walk although one matches more below p. */
  ghost predicate AlsoUnder(f: Path -> bool, f': Path -> bool, p: Path) {
    forall x :: f'(x) == (f(x) || Under(x, p))
  }

  lemma EntersAlike(cfg: Config, cfg': Config, path: Path, node: Node, depth: nat, pdev: u64)
    requires cfg' == cfg.(exclude := cfg'.exclude)
    ensures Enters(cfg', path, node, depth, pdev) == Enters(cfg, path, node, depth, pdev)
    ensures Draft(cfg', path, node, depth, pdev) == Draft(cfg, path, node, depth, pdev)
  {
  }

  /** Stepping down one name enters the subtree of p only at p itself. */
  lemma FirstUnder(d: Path, name: Bytes, p: Path)
    requires IsAbsolute(d) && name != [] && SLASH !in name && !Under(d, p) && Under(Join(d, name), p)
    ensures Join(d, name) == p
  {
    var x, q := Join(d, name), Prefix(d);
    assert forall i | |q| <= i < |x| :: x[i] == name[i - |q|] && x[i] != SLASH;
  }

  lemma {:induction false} VisitAlike(cfg: Config, cfg': Config, p: Path, path: Path, node: Node, depth: nat, pdev: u64)
    requires cfg' == cfg.(exclude := cfg'.exclude) && AlsoUnder(cfg.exclude, cfg'.exclude, p) && cfg.exclude(p)
    requires WellFormed(node) && IsAbsolute(path) && !Under(path, p)
    ensures Visit(cfg', path, node, depth, pdev) == Visit(cfg, path, node, depth, pdev)
    decreases node, 1
  {
    hide Enters, Draft, AlsoUnder, Under;
    EntersAlike(cfg, cfg', path, node, depth, pdev);
    KidsAlike(cfg, cfg', p, path, node.kids, depth + 1, node.info.dev);
  }

  lemma {:induction false} KidsAlike(cfg: Config, cfg': Config, p: Path, dir: Path, kids: Listing, depth: nat,
                                     pdev: u64)
    requires cfg' == cfg.(exclude := cfg'.exclude) && AlsoUnder(cfg.exclude, cfg'.exclude, p) && cfg.exclude(p)
    requires Listed(kids) && IsAbsolute(dir) && !Under(dir, p)
    ensures VisitKids(cfg', dir, kids, depth, pdev) == VisitKids(cfg, dir, kids, depth, pdev)
    decreases kids, 0
  {
    hide Visit, Under, CompareNames;
    if kids.Dirent? {
      var path := Join(dir, kids.name);
      assert cfg'.exclude(path) == (cfg.exclude(path) || Under(path, p));
      KidsAlike(cfg, cfg', p, dir, kids.rest, depth, pdev);
      if Under(path, p) {
        FirstUnder(dir, kids.name, p);
      } else if kids.stat.Present? {
        assert path[0] == dir[0];
        VisitAlike(cfg, cfg', p, path, kids.stat.node, depth, pdev);
      }
    }
  }

  /** The walk of a root outside p: skipping p, once something matches p itself, changes nothing. */
  lemma CoveredPrefixInert(cfg: Config, cfg': Config, p: Path, root: Path, tree: Node)
    requires cfg' == cfg.(exclude := cfg'.exclude) && AlsoUnder(cfg.exclude, cfg'.exclude, p) && cfg.exclude(p)
    requires WellFormed(tree) && IsAbsolute(root) && !Under(root, p)
    ensures Scan(cfg', root, tree) == Scan(cfg, root, tree)
  {
    hide Visit, AlsoUnder, Under, WellFormed, Hashed;
    VisitAlike(cfg, cfg', p, root, tree, 0, tree.info.dev);
    var v := Visit(cfg, root, tree, 0, tree.info.dev);
    assert FinishAll(cfg', v) == FinishAll(cfg, v) by {
      forall i | 0 <= i < |v| ensures Finished(cfg', v[i]) == Finished(cfg, v[i]) { HashAlike(cfg, cfg', v[i]); }
    }
  }

  lemma HashAlike(cfg: Config, cfg': Config, e: Entry)
    requires cfg' == cfg.(exclude := cfg'.exclude)
    ensures Finished(cfg', e) == Finished(cfg, e)
  {
  }

  /** What addAuto would do without its test. */
  function AddUntested(g: Library, s: Perimeter, lines: seq<Bytes>): Option<Perimeter>
    decreases |lines|
  {
    if lines == [] then Some(s)
    else
      var p := g.trim(lines[0]);
      var t := if p == [] then Some(s) else AddOne(g, s, p);
      if t.None? then None else AddUntested(g, t.value, lines[1..])
  }

  lemma PlainNeverFails(g: Library, s: Perimeter, p: Bytes)
    requires PlainPath(g, p)
    ensures AddOne(g, s, p).Some? && AddOne(g, s, p).value.root == s.root
    ensures AddOne(g, s, p) == if CoversRoot(g, s.root, p) then Some(s.(dropped := s.dropped + [p]))
                               else Some(s.(patterns := s.patterns + [p], prefixes := s.prefixes + [p]))
  {
  }

  /** One more prefix at the front of a run of additions is one more prefix in the result. */
  lemma {:induction false} UntestedMatches(g: Library, s: Perimeter, lines: seq<Bytes>, path: Path)
    requires forall i | 0 <= i < |lines| :: PlainPath(g, lines[i])
    ensures AddUntested(g, s, lines).Some? && AddUntested(g, s, lines).value.root == s.root
    ensures Matches(g, AddUntested(g, s, lines).value, path)
            <==> (|| Matches(g, s, path)
                  || exists i | 0 <= i < |lines| :: !CoversRoot(g, s.root, lines[i]) && Under(path, lines[i]))
    decreases |lines|
  {
    hide Matches, Under, CoversRoot, AddOne, PlainPath;
    if lines != [] {
      var p, later := lines[0], lines[1..];
      PlainIs(g, p);
      PlainNeverFails(g, s, p);
      AddOneMatches(g, s, p, path);
      assert MatchesOne(g, p, path) == Under(path, p) by { PlainMatches(g, p, path); }
      hide MatchesOne;
      UntestedMatches(g, AddOne(g, s, p).value, later, path);
      assert forall i | 0 <= i < |later| :: later[i] == lines[i + 1];
      if i :| 0 <= i < |lines| && !CoversRoot(g, s.root, lines[i]) && Under(path, lines[i]) {
        if i > 0 { assert later[i - 1] == lines[i]; }
      }
    }
  }

  lemma PlainMatches(g: Library, p: Bytes, path: Path)
    requires PlainPath(g, p)
    ensures MatchesOne(g, p, path) == Under(path, p)
  {
  }

  /** Skipping automatic paths without a glob character that something already matches, even a glob that matches
      nothing below them, never changes what a walk emits. */
  lemma {:induction false} AutoSkipInert(g: Library, s: Perimeter, lines: seq<Bytes>, cfg: Config, root: Path,
                                         tree: Node)
    requires forall i | 0 <= i < |lines| :: PlainPath(g, lines[i])
    requires s.root == Some(root) && IsAbsolute(root) && WellFormed(tree)
    ensures AddAuto(g, s, lines).Some? && AddUntested(g, s, lines).Some?
    ensures Scan(cfg.(exclude := x => Matches(g, AddAuto(g, s, lines).value, x)), root, tree)
         == Scan(cfg.(exclude := x => Matches(g, AddUntested(g, s, lines).value, x)), root, tree)
    decreases |lines|
  {
    hide Matches, Under, AddOne, WellFormed, Scan;
    if lines != [] {
      var p, later := lines[0], lines[1..];
      PlainNeverFails(g, s, p);
      var skip := g.trim(p) == [] || Matches(g, s, g.trim(p));
      var t := AddAutoLine(g, s, p).value;
      AutoSkipInert(g, t, later, cfg, root, tree);
      if skip {
        UntestedMatches(g, s, later, root);
        UntestedMatches(g, AddOne(g, s, p).value, later, root);
        SkippedOnce(g, s, p, later, cfg, root, tree);
      }
    }
  }

  lemma SkippedOnce(g: Library, s: Perimeter, p: Bytes, later: seq<Bytes>, cfg: Config, root: Path, tree: Node)
    requires PlainPath(g, p) && forall i | 0 <= i < |later| :: PlainPath(g, later[i])
    requires s.root == Some(root) && IsAbsolute(root) && WellFormed(tree) && Matches(g, s, p)
    requires AddUntested(g, s, later).Some? && AddOne(g, s, p).Some?
        && AddUntested(g, AddOne(g, s, p).value, later).Some?
    ensures Scan(cfg.(exclude := x => Matches(g, AddUntested(g, s, later).value, x)), root, tree)
         == Scan(cfg.(exclude := x => Matches(g, AddUntested(g, AddOne(g, s, p).value, later).value, x)), root, tree)
  {
    hide Matches, Under, AddOne, AddUntested, WellFormed, Scan, CoversRoot, PlainPath;
    PlainNeverFails(g, s, p);
    var a, b := AddUntested(g, s, later).value, AddUntested(g, AddOne(g, s, p).value, later).value;
    var f, f' := x => Matches(g, a, x), x => Matches(g, b, x);
    UntestedMatches(g, s, later, p);
    assert f(p);
    forall x ensures f'(x) == (f(x) || (!CoversRoot(g, s.root, p) && Under(x, p))) {
      UntestedMatches(g, s, later, x);
      UntestedMatches(g, AddOne(g, s, p).value, later, x);
      AddOneMatches(g, s, p, x);
      PlainMatches(g, p, x);
    }
    assert p == g.clean(p) && !IsGlob(p) && IsAbsolute(p) by { PlainIs(g, p); }
    if CoversRoot(g, s.root, p) {
      SameExclusion(cfg, f, f', root, tree);
    } else {
      assert !Under(root, p) by { RootOutside(g, s, p, root); }
      CoveredPrefixInert(cfg.(exclude := f), cfg.(exclude := f'), p, root, tree);
    }
  }

  lemma PlainIs(g: Library, p: Bytes)
    requires PlainPath(g, p)
    ensures p == g.clean(p) && !IsGlob(p) && IsAbsolute(p) && p == g.trim(p) && p != []
  {
  }

  lemma RootOutside(g: Library, s: Perimeter, p: Bytes, root: Path)
    requires PlainPath(g, p) && s.root == Some(root) && !CoversRoot(g, s.root, p)
    ensures !Under(root, p)
  {
  }

  lemma {:induction false} SameVisit(cfg: Config, cfg': Config, path: Path, node: Node, depth: nat, pdev: u64)
    requires cfg' == cfg.(exclude := cfg'.exclude) && forall x :: cfg'.exclude(x) == cfg.exclude(x)
    ensures Visit(cfg', path, node, depth, pdev) == Visit(cfg, path, node, depth, pdev)
    decreases node, 1
  {
    hide Enters, Draft;
    EntersAlike(cfg, cfg', path, node, depth, pdev);
    SameKids(cfg, cfg', path, node.kids, depth + 1, node.info.dev);
  }

  lemma {:induction false} SameKids(cfg: Config, cfg': Config, dir: Path, kids: Listing, depth: nat, pdev: u64)
    requires cfg' == cfg.(exclude := cfg'.exclude) && forall x :: cfg'.exclude(x) == cfg.exclude(x)
    ensures VisitKids(cfg', dir, kids, depth, pdev) == VisitKids(cfg, dir, kids, depth, pdev)
    decreases kids, 0
  {
    hide Visit, Join;
    if kids.Dirent? {
      SameKids(cfg, cfg', dir, kids.rest, depth, pdev);
      if kids.stat.Present? { SameVisit(cfg, cfg', Join(dir, kids.name), kids.stat.node, depth, pdev); }
    }
  }

  lemma SameExclusion(cfg: Config, f: Path -> bool, f': Path -> bool, root: Path, tree: Node)
    requires forall x :: f'(x) == f(x)
    ensures Scan(cfg.(exclude := f), root, tree) == Scan(cfg.(exclude := f'), root, tree)
  {
    hide Visit, Hashed;
    var c, c' := cfg.(exclude := f), cfg.(exclude := f');
    SameVisit(c, c', root, tree, 0, tree.info.dev);
    var v := Visit(c, root, tree, 0, tree.info.dev);
    forall i | 0 <= i < |v| ensures Finished(c', v[i]) == Finished(c, v[i]) { HashAlike(c, c', v[i]); }
    assert FinishAll(c', v) == FinishAll(c, v);
  }

  // ---- the same for any automatic line ---------------------------------------------------

  ghost predicate NoneExcluded(cfg: Config, es: seq<Entry>) {
    forall e | e in es :: !cfg.exclude(e.path)
  }

  ghost predicate Widens(cfg: Config, cfg': Config) {
    cfg' == cfg.(exclude := cfg'.exclude) && forall x :: cfg.exclude(x) ==> cfg'.exclude(x)
  }

  lemma {:induction false} VisitWidened(cfg: Config, cfg': Config, path: Path, node: Node, depth: nat, pdev: u64)
    requires Widens(cfg, cfg')
    ensures var v, v' := Visit(cfg, path, node, depth, pdev), Visit(cfg', path, node, depth, pdev);
            if NoneExcluded(cfg', v[1..]) then v' == v else |v'| < |v|
    decreases node, 1
  {
    hide Enters, Draft, NoneExcluded;
    EntersAlike(cfg, cfg', path, node, depth, pdev);
    KidsWidened(cfg, cfg', path, node.kids, depth + 1, node.info.dev);
    NothingExcluded(cfg');
  }

  lemma NothingExcluded(cfg: Config)
    ensures NoneExcluded(cfg, [])
  {
  }

  lemma NoneOfEither(cfg: Config, a: seq<Entry>, b: seq<Entry>)
    ensures NoneExcluded(cfg, a + b) <==> NoneExcluded(cfg, a) && NoneExcluded(cfg, b)
  {
    assert forall e :: e in a || e in b <==> e in a + b;
  }

  lemma {:induction false} KidsWidened(cfg: Config, cfg': Config, dir: Path, kids: Listing, depth: nat, pdev: u64)
    requires Widens(cfg, cfg')
    ensures var v, v' := VisitKids(cfg, dir, kids, depth, pdev), VisitKids(cfg', dir, kids, depth, pdev);
            if NoneExcluded(cfg', v) then v' == v else |v'| < |v|
    decreases kids, 0
  {
    hide Visit, NoneExcluded, Widens, VisitOne;
    if kids.End? {
      NothingExcluded(cfg');
    } else {
      var path := Join(dir, kids.name);
      KidsWidened(cfg, cfg', dir, kids.rest, depth, pdev);
      OneWidened(cfg, cfg', path, kids.stat, depth, pdev);
      NoneOfEither(cfg', VisitOne(cfg, path, kids.stat, depth, pdev), VisitKids(cfg, dir, kids.rest, depth, pdev));
    }
  }

  lemma {:induction false} OneWidened(cfg: Config, cfg': Config, path: Path, stat: Stat, depth: nat, pdev: u64)
    requires Widens(cfg, cfg')
    ensures var v, v' := VisitOne(cfg, path, stat, depth, pdev), VisitOne(cfg', path, stat, depth, pdev);
            if NoneExcluded(cfg', v) then v' == v else |v'| < |v|
    decreases stat, 2
  {
    hide Visit;
    if !cfg.exclude(path) && stat.Present? {
      var v := Visit(cfg, path, stat.node, depth, pdev);
      HeadOfVisit(cfg, path, stat.node, depth, pdev);
      VisitWidened(cfg, cfg', path, stat.node, depth, pdev);
      assert v == [v[0]] + v[1..];
      NoneOfEither(cfg', [v[0]], v[1..]);
      assert NoneExcluded(cfg', [v[0]]) <==> !cfg'.exclude(path) by { assert v[0] in [v[0]]; }
    }
  }

  lemma HeadOfVisit(cfg: Config, path: Path, node: Node, depth: nat, pdev: u64)
    ensures |Visit(cfg, path, node, depth, pdev)| > 0 && Visit(cfg, path, node, depth, pdev)[0].path == path
  {
  }

  /** Leaving out more does not change a walk exactly when it emits nothing, but for its root, that is left out. */
  lemma WideningInert(cfg: Config, cfg': Config, root: Path, tree: Node)
    requires Widens(cfg, cfg')
    ensures Scan(cfg', root, tree) == Scan(cfg, root, tree) <==> NoneExcluded(cfg', Scan(cfg, root, tree)[1..])
  {
    hide Visit, Widens, NoneExcluded;
    var v, v' := Visit(cfg, root, tree, 0, tree.info.dev), Visit(cfg', root, tree, 0, tree.info.dev);
    HeadOfVisit(cfg, root, tree, 0, tree.info.dev);
    VisitWidened(cfg, cfg', root, tree, 0, tree.info.dev);
    NoneFinished(cfg, cfg', v[1..]);
    assert FinishAll(cfg, v)[1..] == FinishAll(cfg, v[1..]);
    if v' == v {
      assert cfg' == cfg.(exclude := cfg'.exclude) by { WidensOnly(cfg, cfg'); }
      forall i | 0 <= i < |v| ensures Finished(cfg', v[i]) == Finished(cfg, v[i]) { HashAlike(cfg, cfg', v[i]); }
      assert FinishAll(cfg', v) == FinishAll(cfg, v);
    }
  }

  lemma WidensOnly(cfg: Config, cfg': Config)
    requires Widens(cfg, cfg')
    ensures cfg' == cfg.(exclude := cfg'.exclude)
  {
  }

  lemma NoneFinished(cfg: Config, cfg': Config, es: seq<Entry>)
    ensures NoneExcluded(cfg', FinishAll(cfg, es)) <==> NoneExcluded(cfg', es)
  {
    hide Finished;
    var r := FinishAll(cfg, es);
    forall i | 0 <= i < |es| ensures r[i].path == es[i].path { FinishedKeeps(cfg, es[i]); }
    if NoneExcluded(cfg', r) {
      forall e | e in es ensures !cfg'.exclude(e.path) {
        var i :| 0 <= i < |es| && es[i] == e;
        assert r[i] in r;
      }
    }
  }

  /** Whatever the test keeps out, what is compiled matches no more than without it. */
  lemma {:induction false} SkippingMatchesLess(g: Library, s: Perimeter, s': Perimeter, lines: seq<Bytes>)
    requires s.root == s'.root && forall x | Matches(g, s, x) :: Matches(g, s', x)
    requires AddAuto(g, s, lines).Some? && AddUntested(g, s', lines).Some?
    ensures forall x | Matches(g, AddAuto(g, s, lines).value, x) :: Matches(g, AddUntested(g, s', lines).value, x)
    decreases |lines|
  {
    hide Matches, AddOne, CoversRoot, MatchesOne;
    if lines != [] {
      var p := g.trim(lines[0]);
      var t, t' := AddAutoLine(g, s, lines[0]).value, if p == [] then s' else AddOne(g, s', p).value;
      forall x | Matches(g, t, x) ensures Matches(g, t', x) {
        if p != [] {
          AddOneMatches(g, s', p, x);
          if !Matches(g, s, p) { AddOneMatches(g, s, p, x); }
        }
      }
      if p != [] {
        KeepsRoot(g, s', p);
        if !Matches(g, s, p) { KeepsRoot(g, s, p); }
      }
      SkippingMatchesLess(g, t, t', lines[1..]);
    }
  }

  lemma KeepsRoot(g: Library, s: Perimeter, p: Bytes)
    requires AddOne(g, s, p).Some?
    ensures AddOne(g, s, p).value.root == s.root
  {
  }

  /** For any automatic lines, globs included: skipping those something already matches does not change what a
      walk emits exactly when it emits nothing the skipped ones would have left out. */
  lemma AutoSkipExact(g: Library, s: Perimeter, lines: seq<Bytes>, cfg: Config, root: Path, tree: Node)
    requires AddAuto(g, s, lines).Some? && AddUntested(g, s, lines).Some?
    ensures var a, b := AddAuto(g, s, lines).value, AddUntested(g, s, lines).value;
            var c, c' := cfg.(exclude := x => Matches(g, a, x)), cfg.(exclude := x => Matches(g, b, x));
            Scan(c, root, tree) == Scan(c', root, tree)
            <==> forall e | e in Scan(c, root, tree)[1..] :: !Matches(g, b, e.path)
  {
    hide Matches, Scan;
    SkippingMatchesLess(g, s, s, lines);
    var a, b := AddAuto(g, s, lines).value, AddUntested(g, s, lines).value;
    WideningInert(cfg.(exclude := x => Matches(g, a, x)), cfg.(exclude := x => Matches(g, b, x)), root, tree);
  }

  /** What the automatic lines are for: the path itself is left out, exactly when something left it out already
      or its own pattern does, which a path does that holds no glob character and is not above the root. */
  lemma AutoLineLeavesOut(g: Library, s: Perimeter, p: Path)
    requires g.trim(p) == p && g.clean(p) == p && IsAbsolute(p) && AddAutoLine(g, s, p).Some?
    ensures Matches(g, AddAutoLine(g, s, p).value, p)
       <==> Matches(g, s, p) || (if IsGlob(p) then g.glob(p, p) else !CoversRoot(g, s.root, p))
  {
    hide Matches;
    if !Matches(g, s, p) { AddOneMatches(g, s, p, p); }
  }

  // ---- in place --------------------------------------------------------------------------

  /** The set itself, compiled line by line. */
  class ExclusionSet {
    var root: Option<Path>
    var prefixes: seq<Path>
    var pathGlobs: seq<Bytes>
    var nameGlobs: seq<Bytes>
    var patterns: seq<Bytes>
    var dropped: seq<Bytes>

    function Contents(): Perimeter
      reads this
    {
      Perimeter(root, prefixes, pathGlobs, nameGlobs, patterns, dropped)
    }

    constructor (root: Option<Path>)
      ensures Contents() == Empty(root)
    {
      this.root := root;
      prefixes, pathGlobs, nameGlobs, patterns, dropped := [], [], [], [], [];
    }

    method AddPattern(g: Library, p: Bytes) returns (ok: bool)
      modifies this
      ensures ok <==> AddOne(g, old(Contents()), p).Some?
      ensures ok ==> Contents() == AddOne(g, old(Contents()), p).value
    {
      var isGlob := IsGlob(p);
      if !isGlob && IsAbsolute(p) && root.Some? && Under(root.value, g.clean(p)) {
        dropped := dropped + [p];
        return true;
      }
      patterns := patterns + [p];
      if isGlob && g.malformed(p) { return false; }
      if !IsAbsolute(p) {
        nameGlobs := nameGlobs + [p];
        return true;
      }
      if isGlob {
        pathGlobs := pathGlobs + [p];
        return true;
      }
      prefixes := prefixes + [g.clean(p)];
      return true;
    }

    method AddLines(g: Library, lines: seq<Bytes>) returns (ok: bool)
      modifies this
      ensures ok <==> Add(g, old(Contents()), lines).Some?
      ensures ok ==> Contents() == Add(g, old(Contents()), lines).value
    {
      hide AddOne, IsComment;
      var i := 0;
      assert lines[0..] == lines;
      while i < |lines|
        invariant i <= |lines|
        invariant Add(g, Contents(), lines[i..]) == Add(g, old(Contents()), lines)
      {
        assert lines[i..][1..] == lines[i + 1..];
        var p := g.trim(lines[i]);
        if !(p == [] || IsComment(p)) {
          var added := AddPattern(g, p);
          if !added { return false; }
        }
        i := i + 1;
      }
      return true;
    }

    method AddAutoLines(g: Library, lines: seq<Bytes>) returns (ok: bool)
      modifies this
      ensures ok <==> AddAuto(g, old(Contents()), lines).Some?
      ensures ok ==> Contents() == AddAuto(g, old(Contents()), lines).value
    {
      hide AddOne, Matches;
      var i := 0;
      assert lines[0..] == lines;
      while i < |lines|
        invariant i <= |lines|
        invariant AddAuto(g, Contents(), lines[i..]) == AddAuto(g, old(Contents()), lines)
      {
        assert lines[i..][1..] == lines[i + 1..];
        var p := g.trim(lines[i]);
        var seen := false;
        if p != [] { seen := Match(g, p); }
        if p != [] && !seen {
          var added := AddPattern(g, p);
          if !added { return false; }
        }
        i := i + 1;
      }
      return true;
    }

    method Match(g: Library, path: Path) returns (hit: bool)
      ensures hit == Matches(g, Contents(), path)
    {
      hide Under;
      for i := 0 to |prefixes|
        invariant forall j | 0 <= j < i :: !Under(path, prefixes[j])
      {
        if Under(path, prefixes[i]) { return true; }
      }
      for i := 0 to |pathGlobs|
        invariant forall j | 0 <= j < i :: !g.glob(pathGlobs[j], path)
      {
        if g.glob(pathGlobs[i], path) { return true; }
      }
      if |nameGlobs| > 0 {
        var base := g.base(path);
        for i := 0 to |nameGlobs|
          invariant forall j | 0 <= j < i :: !g.glob(nameGlobs[j], base)
        {
          if g.glob(nameGlobs[i], base) { return true; }
        }
      }
      return false;
    }
  }

  method NewSet(g: Library, root: Bytes, defaults: seq<Bytes>, patterns: seq<Bytes>, auto: seq<Bytes>)
    returns (s: ExclusionSet, ok: bool)
    ensures ok <==> Compile(g, root, defaults, patterns, auto).Some?
    ensures ok ==> s.Contents() == Compile(g, root, defaults, patterns, auto).value
  {
    hide Add, AddAuto;
    s := new ExclusionSet(CleanRoot(g, root));
    ok := s.AddLines(g, defaults);
    if !ok { return; }
    ok := s.AddLines(g, patterns);
    if !ok { return; }
    ok := s.AddAutoLines(g, auto);
  }
}
