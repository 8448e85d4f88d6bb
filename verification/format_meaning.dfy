// What a compiler on Linux sees of a source file, line by line.
module Preprocessor {

  predicate IsBlank(c: char) { c == ' ' || c == '\t' }

  predicate IsWordChar(c: char) {
    'a' <= c <= 'z' || 'A' <= c <= 'Z' || '0' <= c <= '9' || c == '_'
  }

  function SkipBlanks(s: string): string {
    if s != "" && IsBlank(s[0]) then SkipBlanks(s[1..]) else s
  }

  function Word(s: string): (w: string)
    ensures |w| <= |s|
  {
    if s != "" && IsWordChar(s[0]) then [s[0]] + Word(s[1..]) else ""
  }

  // Everything that is not a conditional is Plain, #define and #include too.
  datatype Directive = Plain | Ifdef(name: string) | Ifndef(name: string) | If | Elif | Else | Endif

  function Read(l: string): Directive {
    var t := SkipBlanks(l);
    if t == "" || t[0] != '#' then Plain
    else
      var u := SkipBlanks(t[1..]);
      var w := Word(u);
      var name := Word(SkipBlanks(u[|w|..]));
      if w == "ifdef" then Ifdef(name)
      else if w == "ifndef" then Ifndef(name)
      else if w == "if" then If
      else if w == "elif" then Elif
      else if w == "else" then Else
      else if w == "endif" then Endif
      else Plain
  }

  // The value of any condition that is not about the two marks, given the lines
  // selected before it (which hold the #define lines) and its own text.
  type Oracle = (seq<string>, string) -> bool

  // `taken`: no later branch of this conditional can be selected.
  datatype Frame = Frame(active: bool, taken: bool)

  ghost predicate Active(s: seq<Frame>) { forall i :: 0 <= i < |s| ==> s[i].active }

  ghost function CondValue(oracle: Oracle, out: seq<string>, l: string): bool {
    var d := Read(l);
    if d == Ifdef("SYS_LINUX") || d == Ifndef("SYS_WINDOWS") then true
    else if d == Ifdef("SYS_WINDOWS") || d == Ifndef("SYS_LINUX") then false
    else oracle(out, l)
  }

  datatype Seen = Seen(frames: seq<Frame>, out: seq<string>)

  ghost function See(oracle: Oracle, l: string, s: seq<Frame>, out: seq<string>): Seen {
    match Read(l)
    case Plain => Seen(s, if Active(s) then out + [l] else out)
    case Endif => Seen(if s == [] then s else s[..|s| - 1], out)
    case Else =>
      if s == [] then Seen(s, out)
      else
        var below, top := s[..|s| - 1], s[|s| - 1];
        Seen(below + [Frame(Active(below) && !top.taken, true)], out)
    case Elif =>
      if s == [] then Seen(s, out)
      else
        var below, top := s[..|s| - 1], s[|s| - 1];
        var v := Active(below) && !top.taken && oracle(out, l);
        Seen(below + [Frame(v, top.taken || v)], out)
    case _ =>
      var v := CondValue(oracle, out, l);
      Seen(s + [Frame(Active(s) && v, !Active(s) || v)], out)
  }

  // The lines selected with SYS_LINUX defined and SYS_WINDOWS undefined.
  ghost function Select(oracle: Oracle, lines: seq<string>, s: seq<Frame>, out: seq<string>): seq<string>
    decreases |lines|
  {
    if lines == [] then out
    else var next := See(oracle, lines[0], s, out); Select(oracle, lines[1..], next.frames, next.out)
  }
}

// The two filters keep what the compiler selects.
module FormatMeaning {
  import opened LineFilters
  import opened Preprocessor

  // What an open conditional is about.
  datatype Kind = Win | Lin | Other

  predicate Quiet(l: string, inWin: bool) {
    !IsWinOpen(l) && (inWin ==> !IsWinClose(l)) && (!inWin ==> !IsLinuxMark(l))
  }

  predicate Opens(l: string) { Read(l).Ifdef? || Read(l).Ifndef? || Read(l).If? }

  // One line of a well-nested, labelled source inside the open conditionals `k`:
  // marks stand where the compiler sees the directive, blocks close under their
  // own mark, no SYS_WINDOWS block lies in another, and no #else or #elif belongs
  // to a marked block.
  predicate LineOk(l: string, k: seq<Kind>) {
    var inWin := Win in k;
    match Read(l)
    case Ifdef(name) =>
      if name == "SYS_WINDOWS" then IsWinOpen(l) && !IsWinClose(l) && !inWin
      else if name == "SYS_LINUX" then (if inWin then Quiet(l, inWin) else IsLinuxMark(l) && !IsWinOpen(l))
      else Quiet(l, inWin)
    case Endif =>
      k != [] && (match k[|k| - 1]
        case Win => IsWinClose(l)
        case Lin => if inWin then Quiet(l, inWin) else IsLinuxMark(l) && !IsWinOpen(l)
        case Other => Quiet(l, inWin))
    case Else => k != [] && k[|k| - 1] == Other && Quiet(l, inWin)
    case Elif => k != [] && k[|k| - 1] == Other && Quiet(l, inWin)
    case _ => Quiet(l, inWin)
  }

  function KindsAfter(l: string, k: seq<Kind>): seq<Kind> {
    if Opens(l) then
      k + [if Read(l) == Ifdef("SYS_WINDOWS") then Win else if Read(l) == Ifdef("SYS_LINUX") then Lin else Other]
    else if Read(l).Endif? && k != [] then k[..|k| - 1]
    else k
  }

  predicate WellLabelled(lines: seq<string>, k: seq<Kind>)
    decreases |lines|
  {
    if lines == [] then k == []
    else LineOk(lines[0], k) && WellLabelled(lines[1..], KindsAfter(lines[0], k))
  }

  // At most one SYS_WINDOWS block is open; its frame is not active. A SYS_LINUX
  // frame is as active as what surrounds it.
  ghost predicate FramesFit(s: seq<Frame>, k: seq<Kind>) {
    && |s| == |k|
    && (forall i :: 0 <= i < |k| && k[i] == Win ==> !s[i].active)
    && (forall i :: 0 <= i < |k| && k[i] == Lin ==> (s[i].active <==> Active(s[..i])))
    && (forall i, j :: 0 <= i < j < |k| && k[i] == Win ==> k[j] != Win)
  }

  // The frames that remain when marked directives and SYS_WINDOWS blocks are gone.
  ghost function Residue(s: seq<Frame>, k: seq<Kind>): seq<Frame>
    requires |s| == |k|
    decreases |k|
  {
    if k == [] then []
    else
      var n := |k| - 1;
      if Win in k[..n] || k[n] != Other then Residue(s[..n], k[..n])
      else Residue(s[..n], k[..n]) + [s[n]]
  }

  lemma ResiduePush(s: seq<Frame>, k: seq<Kind>, f: Frame, x: Kind)
    requires |s| == |k|
    ensures Residue(s + [f], k + [x]) == Residue(s, k) + (if Win in k || x != Other then [] else [f])
  {
    assert (s + [f])[..|k|] == s && (k + [x])[..|k|] == k;
  }

  lemma ActivePush(s: seq<Frame>, f: Frame)
    ensures Active(s + [f]) <==> Active(s) && f.active
  {
    if Active(s + [f]) {
      forall i | 0 <= i < |s| ensures s[i].active { assert (s + [f])[i] == s[i]; }
      assert (s + [f])[|s|] == f;
    }
  }

  lemma FramesFitPrefix(s: seq<Frame>, k: seq<Kind>)
    requires FramesFit(s, k) && k != []
    ensures FramesFit(s[..|k| - 1], k[..|k| - 1])
  {
    var n := |k| - 1;
    forall i | 0 <= i < n && k[i] == Lin ensures s[i].active <==> Active(s[..n][..i]) {
      assert s[..n][..i] == s[..i];
    }
  }

  lemma {:induction false} ResidueActive(s: seq<Frame>, k: seq<Kind>)
    requires FramesFit(s, k)
    ensures Win in k ==> !Active(s)
    ensures Win !in k ==> (Active(s) <==> Active(Residue(s, k)))
    decreases |k|
  {
    if k != [] {
      var n := |k| - 1;
      assert s == s[..n] + [s[n]] && k == k[..n] + [k[n]];
      FramesFitPrefix(s, k);
      ResidueActive(s[..n], k[..n]);
      ActivePush(s[..n], s[n]);
      ActivePush(Residue(s[..n], k[..n]), s[n]);
    }
  }

  // The text that comes out of both filters.
  function Final(lines: seq<string>, skip: bool): seq<string> { DropLinux(DropWindows(lines, skip)) }

  predicate Dropped(l: string, inWin: bool) { inWin || IsWinOpen(l) || IsLinuxMark(l) }

  lemma FinalStep(lines: seq<string>, k: seq<Kind>)
    requires lines != [] && LineOk(lines[0], k) && FramesFitKinds(k)
    ensures var skip' := Win in KindsAfter(lines[0], k);
      Final(lines, Win in k)
      == (if Dropped(lines[0], Win in k) then [] else [lines[0]]) + Final(lines[1..], skip')
  {
    WinAfter(lines[0], k);
  }

  ghost predicate FramesFitKinds(k: seq<Kind>) {
    forall i, j :: 0 <= i < j < |k| && k[i] == Win ==> k[j] != Win
  }

  // A SYS_WINDOWS block is entered and left exactly where _proc turns bskip.
  lemma WinAfter(l: string, k: seq<Kind>)
    requires LineOk(l, k) && FramesFitKinds(k)
    ensures Win in KindsAfter(l, k) <==> (Win in k || IsWinOpen(l)) && !(Win in k && IsWinClose(l))
    ensures IsWinOpen(l) && !(Win in k) ==> !IsWinClose(l)
  {
    if k != [] {
      var n := |k| - 1;
      assert k == k[..n] + [k[n]];
      if k[n] == Win { assert Win !in k[..n]; }
    }
  }

  // `l` does to the residue what it does to the frames, or is dropped and does nothing.
  ghost predicate Agrees(oracle: Oracle, l: string, s: seq<Frame>, k: seq<Kind>, out: seq<string>)
    requires |s| == |k|
  {
    var next, k' := See(oracle, l, s, out), KindsAfter(l, k);
    && FramesFit(next.frames, k')
    && if Dropped(l, Win in k) then Residue(next.frames, k') == Residue(s, k) && next.out == out
       else See(oracle, l, Residue(s, k), out) == Seen(Residue(next.frames, k'), next.out)
  }

  lemma FitPush(s: seq<Frame>, k: seq<Kind>, f: Frame, x: Kind)
    requires FramesFit(s, k)
    requires x == Win ==> !f.active && Win !in k
    requires x == Lin ==> (f.active <==> Active(s))
    ensures FramesFit(s + [f], k + [x])
  {
    assert (s + [f])[..|s|] == s;
    forall i | 0 <= i < |k| && k[i] == Lin ensures (s + [f])[i].active <==> Active((s + [f])[..i]) {
      assert (s + [f])[..i] == s[..i];
    }
  }

  // The frame and the kind that an opening line adds.
  lemma Opened(oracle: Oracle, l: string, s: seq<Frame>, k: seq<Kind>, out: seq<string>) returns (f: Frame, x: Kind)
    requires LineOk(l, k) && Opens(l)
    ensures See(oracle, l, s, out) == Seen(s + [f], out) && KindsAfter(l, k) == k + [x]
    ensures f == Frame(Active(s) && CondValue(oracle, out, l), !Active(s) || CondValue(oracle, out, l))
    ensures x == Win <==> Read(l) == Ifdef("SYS_WINDOWS")
    ensures x == Lin <==> Read(l) == Ifdef("SYS_LINUX")
    ensures Dropped(l, Win in k) <==> Win in k || x != Other
  {
    var v := CondValue(oracle, out, l);
    f := Frame(Active(s) && v, !Active(s) || v);
    x := KindsAfter(l, k)[|k|];
  }

  lemma SeeOpening(oracle: Oracle, l: string, s: seq<Frame>, k: seq<Kind>, out: seq<string>)
    requires FramesFit(s, k) && LineOk(l, k) && Opens(l)
    ensures Agrees(oracle, l, s, k, out)
  {
    var f, x := Opened(oracle, l, s, k, out);
    ResidueActive(s, k);
    ResiduePush(s, k, f, x);
    FitPush(s, k, f, x);
    if !Dropped(l, Win in k) {
      var g, y := Opened(oracle, l, Residue(s, k), k, out);
    }
  }

  lemma SeePlain(oracle: Oracle, l: string, s: seq<Frame>, k: seq<Kind>, out: seq<string>)
    requires FramesFit(s, k) && LineOk(l, k) && Read(l).Plain?
    ensures Agrees(oracle, l, s, k, out)
  {
    ResidueActive(s, k);
  }

  lemma SeeEndif(oracle: Oracle, l: string, s: seq<Frame>, k: seq<Kind>, out: seq<string>)
    requires FramesFit(s, k) && LineOk(l, k) && Read(l).Endif?
    ensures Agrees(oracle, l, s, k, out)
  {
    var n := |k| - 1;
    assert s == s[..n] + [s[n]] && k == k[..n] + [k[n]];
    FramesFitPrefix(s, k);
    ResiduePush(s[..n], k[..n], s[n], k[n]);
  }

  // Another frame on top of the same ones.
  lemma TopReplaced(s: seq<Frame>, k: seq<Kind>, f: Frame)
    requires FramesFit(s, k) && k != [] && k[|k| - 1] == Other
    ensures var s0, k0 := s[..|k| - 1], k[..|k| - 1];
      && FramesFit(s0 + [f], k) && FramesFit(s0, k0)
      && Residue(s0 + [f], k) == Residue(s0, k0) + (if Win in k0 then [] else [f])
      && (Win in k0 <==> Win in k)
  {
    var n := |k| - 1;
    var s0, k0, next := s[..n], k[..n], s[..n] + [f];
    assert k == k0 + [Other];
    FramesFitPrefix(s, k);
    ResiduePush(s0, k0, f, Other);
    forall i | 0 <= i < |k| && k[i] == Lin ensures next[i].active <==> Active(next[..i]) {
      assert next[..i] == s[..i];
    }
  }

  lemma SeeBranch(oracle: Oracle, l: string, s: seq<Frame>, k: seq<Kind>, out: seq<string>)
    requires FramesFit(s, k) && LineOk(l, k) && (Read(l).Else? || Read(l).Elif?)
    ensures Agrees(oracle, l, s, k, out)
  {
    var n := |k| - 1;
    var s0, k0 := s[..n], k[..n];
    TopReplaced(s, k, s[n]);
    assert s == s0 + [s[n]];
    ResidueActive(s0, k0);
    var next := See(oracle, l, s, out).frames;
    assert next == s0 + [next[n]];
    TopReplaced(s, k, next[n]);
    var r0 := Residue(s0, k0);
    if Win !in k {
      assert Residue(s, k)[..|r0|] == r0;
    }
  }

  lemma SeeAgrees(oracle: Oracle, l: string, s: seq<Frame>, k: seq<Kind>, out: seq<string>)
    requires FramesFit(s, k) && LineOk(l, k)
    ensures Agrees(oracle, l, s, k, out)
  {
    if Opens(l) { SeeOpening(oracle, l, s, k, out); }
    else if Read(l).Plain? { SeePlain(oracle, l, s, k, out); }
    else if Read(l).Endif? { SeeEndif(oracle, l, s, k, out); }
    else { SeeBranch(oracle, l, s, k, out); }
  }

  lemma SelectStep(oracle: Oracle, l: string, rest: seq<string>, s: seq<Frame>, out: seq<string>, next: Seen)
    requires next == See(oracle, l, s, out)
    ensures Select(oracle, [l] + rest, s, out) == Select(oracle, rest, next.frames, next.out)
  {
    assert ([l] + rest)[1..] == rest;
  }

  lemma {:induction false} FiltersKeepMeaning(
      oracle: Oracle, lines: seq<string>, s: seq<Frame>, k: seq<Kind>, out: seq<string>)
    requires FramesFit(s, k) && WellLabelled(lines, k)
    ensures Select(oracle, lines, s, out) == Select(oracle, Final(lines, Win in k), Residue(s, k), out)
    decreases |lines|
  {
    if lines != [] {
      var l, rest := lines[0], lines[1..];
      assert lines == [l] + rest;
      var next, k' := See(oracle, l, s, out), KindsAfter(l, k);
      SeeAgrees(oracle, l, s, k, out);
      FinalStep(lines, k);
      FiltersKeepMeaning(oracle, rest, next.frames, k', next.out);
      SelectStep(oracle, l, rest, s, out, next);
      var final := Final(rest, Win in k');
      if Dropped(l, Win in k) {
        assert Final(lines, Win in k) == [] + final == final;
      } else {
        SelectStep(oracle, l, final, Residue(s, k), out, Seen(Residue(next.frames, k'), next.out));
      }
    }
  }

  // ---------------------------------------------------------------- whole files

  lemma {:induction false} CStrIsWhole(l: string)
    requires '\0' !in l
    ensures CStr(l) == l
  {
    if l != "" { CStrIsWhole(l[1..]); }
  }

  lemma {:induction false} CStrsAreWhole(lines: seq<string>)
    requires forall i :: 0 <= i < |lines| ==> '\0' !in lines[i]
    ensures CStrs(lines) == lines
  {
    if lines != [] {
      CStrIsWhole(lines[0]);
      CStrsAreWhole(lines[1..]);
    }
  }

  // A text file: no NUL characters.
  predicate IsText(s: string) { '\0' !in s }

  lemma {:induction false} PiecesOfText(s: string)
    requires IsText(s)
    ensures forall i :: 0 <= i < |Split(s)| ==> '\0' !in Split(s)[i]
    decreases |s|
  {
    var k := LineEnd(s);
    if k < |s| { PiecesOfText(s[k + 1..]); }
  }

  lemma LinesOfText(s: string)
    requires IsText(s)
    ensures CStrs(Split(s)) == Split(s) && NoNewline(Split(s))
  {
    PiecesOfText(s);
    CStrsAreWhole(Split(s));
    SplitHasNoNewline(s);
  }

  ghost predicate Clean(lines: seq<string>) {
    forall i :: 0 <= i < |lines| ==> '\n' !in lines[i] && '\0' !in lines[i]
  }

  lemma {:induction false} JoinIsText(lines: seq<string>)
    requires Clean(lines)
    ensures IsText(Join(lines))
  {
    if |lines| > 1 { JoinIsText(lines[1..]); }
  }

  lemma {:induction false} DropWindowsClean(lines: seq<string>, skip: bool)
    requires Clean(lines)
    ensures Clean(DropWindows(lines, skip))
    decreases |lines|
  {
    if lines != [] {
      DropWindowsClean(lines[1..], false);
      DropWindowsClean(lines[1..], true);
    }
  }

  lemma {:induction false} DropLinuxClean(lines: seq<string>)
    requires Clean(lines)
    ensures Clean(DropLinux(lines))
  {
    if lines != [] { DropLinuxClean(lines[1..]); }
  }

  // Reading back what was written: the same lines, or one empty line for none.
  lemma ReadBack(lines: seq<string>)
    requires Clean(lines)
    ensures CStrs(Split(Join(lines))) == if lines == [] then [""] else lines
  {
    JoinIsText(lines);
    LinesOfText(Join(lines));
    if lines != [] { SplitJoin(lines); }
  }

  // For every well-nested, labelled text the lines that a compiler on Linux
  // selects are the same before and after the two filters. Only a text of which
  // nothing remains comes back as one empty line.
  lemma FormattedFileMeansTheSame(oracle: Oracle, content: string)
    requires IsText(content) && WellLabelled(Split(content), [])
    ensures var out := LinuxDropped(WindowsDropped(content));
      Select(oracle, Split(out), [], [])
      == if Final(Split(content), false) == [] then [""] else Select(oracle, Split(content), [], [])
    ensures Final(Split(content), false) == [] ==> Select(oracle, Split(content), [], []) == []
  {
    var lines := Split(content);
    LinesOfText(content);
    PiecesOfText(content);
    FiltersKeepMeaning(oracle, lines, [], [], []);
    var kept := DropWindows(lines, false);
    DropWindowsClean(lines, false);
    ReadBack(kept);
    var final := DropLinux(kept);
    DropLinuxClean(kept);
    ReadBack(final);
    LinesOfText(Join(final)) by { JoinIsText(final); }
    if kept == [] {
      EmptyLineIsKept(oracle);
    } else if final == [] {
      EmptyLineIsKept(oracle);
    }
  }

  lemma EmptyLineIsKept(oracle: Oracle)
    ensures !IsLinuxMark("") && DropLinux([""]) == [""] && Join([""]) == ""
    ensures Split("") == [""] && Select(oracle, [""], [], []) == [""]
  {
    assert Read("") == Plain;
    assert See(oracle, "", [], []) == Seen([], [""]);
    assert Select(oracle, [""][1..], [], [""]) == [""];
  }

  // ------------------------------------------------ the #else of a Windows block

  // Conditionals that open and close within the lines; `depth` are open before
  // them, and no #else or #elif belongs to an outer one.
  predicate Nested(lines: seq<string>, depth: nat)
    decreases |lines|
  {
    if lines == [] then depth == 0
    else
      var l := lines[0];
      if Opens(l) then Nested(lines[1..], depth + 1)
      else if Read(l).Endif? then depth > 0 && Nested(lines[1..], depth - 1)
      else (Read(l).Else? || Read(l).Elif? ==> depth > 0) && Nested(lines[1..], depth)
  }

  ghost function SeeAll(oracle: Oracle, lines: seq<string>, s: seq<Frame>, out: seq<string>): Seen
    decreases |lines|
  {
    if lines == [] then Seen(s, out)
    else var next := See(oracle, lines[0], s, out); SeeAll(oracle, lines[1..], next.frames, next.out)
  }

  lemma {:induction false} SelectAppend(oracle: Oracle, a: seq<string>, b: seq<string>, s: seq<Frame>, out: seq<string>)
    ensures Select(oracle, a + b, s, out)
         == Select(oracle, b, SeeAll(oracle, a, s, out).frames, SeeAll(oracle, a, s, out).out)
    decreases |a|
  {
    if a == [] {
      assert a + b == b;
    } else {
      assert (a + b)[1..] == a[1..] + b;
      var next := See(oracle, a[0], s, out);
      SelectAppend(oracle, a[1..], b, next.frames, next.out);
    }
  }

  lemma ActiveOver(base: seq<Frame>, above: seq<Frame>)
    ensures Active(base + above) <==> Active(base) && Active(above)
  {
    var s := base + above;
    if Active(s) {
      forall i | 0 <= i < |base| ensures base[i].active { assert s[i] == base[i]; }
      forall i | 0 <= i < |above| ensures above[i].active { assert s[|base| + i] == above[i]; }
    }
  }

  // What one line does on top of frames of which only counts whether they are active.
  ghost function SeeTop(oracle: Oracle, l: string, active: bool, above: seq<Frame>, out: seq<string>): (next: Seen)
    requires (Read(l).Endif? || Read(l).Else? || Read(l).Elif?) ==> above != []
    ensures |next.frames| == if Opens(l) then |above| + 1 else if Read(l).Endif? then |above| - 1 else |above|
    ensures !active ==> next.out == out
  {
    match Read(l)
    case Plain => Seen(above, if active && Active(above) then out + [l] else out)
    case Endif => Seen(above[..|above| - 1], out)
    case Else =>
      var below, top := above[..|above| - 1], above[|above| - 1];
      Seen(below + [Frame(active && Active(below) && !top.taken, true)], out)
    case Elif =>
      var below, top := above[..|above| - 1], above[|above| - 1];
      var v := active && Active(below) && !top.taken && oracle(out, l);
      Seen(below + [Frame(v, top.taken || v)], out)
    case _ =>
      var v, on := CondValue(oracle, out, l), active && Active(above);
      Seen(above + [Frame(on && v, !on || v)], out)
  }

  lemma SeeAbove(oracle: Oracle, l: string, base: seq<Frame>, above: seq<Frame>, out: seq<string>)
    requires (Read(l).Endif? || Read(l).Else? || Read(l).Elif?) ==> above != []
    ensures var next := SeeTop(oracle, l, Active(base), above, out);
      See(oracle, l, base + above, out) == Seen(base + next.frames, next.out)
  {
    ActiveOver(base, above);
    if Read(l).Endif? || Read(l).Else? || Read(l).Elif? {
      var below := above[..|above| - 1];
      ActiveOver(base, below);
      assert (base + above)[..|base + above| - 1] == base + below;
    }
  }

  // Nested lines leave the frames below them as they were.
  lemma {:induction false} NestedKeepsFrames(
      oracle: Oracle, lines: seq<string>, base: seq<Frame>, above: seq<Frame>, out: seq<string>)
    requires Nested(lines, |above|)
    ensures SeeAll(oracle, lines, base + above, out).frames == base
    ensures !Active(base) ==> SeeAll(oracle, lines, base + above, out).out == out
    decreases |lines|
  {
    if lines == [] {
      assert base + above == base;
    } else {
      var next := SeeTop(oracle, lines[0], Active(base), above, out);
      SeeAbove(oracle, lines[0], base, above, out);
      NestedKeepsFrames(oracle, lines[1..], base, next.frames, next.out);
    }
  }

  lemma {:induction false} SkippedToClose(lines: seq<string>, close: string, rest: seq<string>)
    requires forall i :: 0 <= i < |lines| ==> !IsWinClose(lines[i])
    requires IsWinClose(close)
    ensures DropWindows(lines + ([close] + rest), true) == DropWindows(rest, false)
    decreases |lines|
  {
    if lines == [] {
      assert lines + ([close] + rest) == [close] + rest;
      assert ([close] + rest)[1..] == rest;
    } else {
      assert (lines + ([close] + rest))[1..] == lines[1..] + ([close] + rest);
      SkippedToClose(lines[1..], close, rest);
    }
  }

  // #ifdef SYS_WINDOWS, `first`, #else, `second`, #endif, with the marks where the
  // filter looks for them and nowhere in between.
  predicate WindowsBlockWithElse(open: string, first: seq<string>, middle: string, second: seq<string>, close: string) {
    && Read(open) == Ifdef("SYS_WINDOWS") && IsWinOpen(open) && !IsWinClose(open)
    && Read(middle) == Else && !IsWinClose(middle)
    && Read(close) == Endif && IsWinClose(close)
    && Nested(first, 0) && Nested(second, 0)
    && (forall i :: 0 <= i < |first| ==> !IsWinClose(first[i]))
    && (forall i :: 0 <= i < |second| ==> !IsWinClose(second[i]))
  }

  // An opening line, `first`, a middle line, `second`, a closing line.
  function Block(open: string, first: seq<string>, middle: string, second: seq<string>, close: string): seq<string> {
    [open] + (first + ([middle] + (second + [close])))
  }

  // What lies between the ends of a block.
  function Inner(first: seq<string>, middle: string, second: seq<string>): seq<string> { first + ([middle] + second) }

  lemma BlockParts(
      open: string, first: seq<string>, middle: string, second: seq<string>, close: string, rest: seq<string>)
    ensures Block(open, first, middle, second, close) + rest
         == [open] + (Inner(first, middle, second) + ([close] + rest))
    ensures Inner(first, middle, second) + rest == first + ([middle] + (second + rest))
  {
    assert Block(open, first, middle, second, close) == [open] + (Inner(first, middle, second) + [close]);
  }

  lemma InnerLines(first: seq<string>, middle: string, second: seq<string>, i: nat)
    requires i < |Inner(first, middle, second)|
    ensures var l := Inner(first, middle, second)[i]; l == middle || l in first || l in second
  {
    var l := Inner(first, middle, second)[i];
    if i < |first| { assert l == first[i]; }
    if i > |first| { assert l == second[i - |first| - 1]; }
  }

  // The filter removes the whole block ...
  lemma BlockIsDropped(
      open: string, first: seq<string>, middle: string, second: seq<string>, close: string, rest: seq<string>)
    requires WindowsBlockWithElse(open, first, middle, second, close)
    ensures DropWindows(Block(open, first, middle, second, close) + rest, false) == DropWindows(rest, false)
  {
    var inner := Inner(first, middle, second);
    BlockParts(open, first, middle, second, close, rest);
    assert ([open] + (inner + ([close] + rest)))[1..] == inner + ([close] + rest);
    forall i | 0 <= i < |inner| ensures !IsWinClose(inner[i]) { InnerLines(first, middle, second, i); }
    SkippedToClose(inner, close, rest);
  }

  lemma BranchFrames(oracle: Oracle, open: string, middle: string, s: seq<Frame>, out: seq<string>)
    requires Read(open) == Ifdef("SYS_WINDOWS") && Read(middle) == Else
    ensures See(oracle, open, s, out) == Seen(s + [Frame(false, !Active(s))], out)
    ensures See(oracle, middle, s + [Frame(false, !Active(s))], out) == Seen(s + [Frame(Active(s), true)], out)
    ensures !Active(s + [Frame(false, !Active(s))])
  {
    assert (s + [Frame(false, !Active(s))])[..|s|] == s;
    ActivePush(s, Frame(false, !Active(s)));
  }

  lemma SeeAllStep(oracle: Oracle, a: seq<string>, b: seq<string>, s: seq<Frame>, out: seq<string>, next: Seen)
    requires next == SeeAll(oracle, a, s, out)
    ensures Select(oracle, a + b, s, out) == Select(oracle, b, next.frames, next.out)
  {
    SelectAppend(oracle, a, b, s, out);
  }

  // ... but on Linux its second part is selected, inside any open conditionals and
  // before any rest: the block selects what `second` does under an #else that is as
  // active as what surrounds it.
  lemma ElseOfWindowsBlockIsSelected(
      oracle: Oracle, open: string, first: seq<string>, middle: string, second: seq<string>, close: string,
      rest: seq<string>, s: seq<Frame>, out: seq<string>)
    requires WindowsBlockWithElse(open, first, middle, second, close)
    ensures Select(oracle, Block(open, first, middle, second, close) + rest, s, out)
         == Select(oracle, rest, s, Select(oracle, second, s + [Frame(Active(s), true)], out))
  {
    var f, g := s + [Frame(false, !Active(s))], s + [Frame(Active(s), true)];
    BranchFrames(oracle, open, middle, s, out);
    NestedKeepsFrames(oracle, first, f, [], out);
    NestedKeepsFrames(oracle, second, g, [], out);
    assert f + [] == f && g + [] == g && g[..|s|] == s;
    var out' := Select(oracle, second, g, out);
    SelectAppend(oracle, second, [], g, out);
    assert second + [] == second;
    var tail1 := [close] + rest;
    var tail2 := second + tail1;
    var tail3 := [middle] + tail2;
    var tail4 := first + tail3;
    BlockParts(open, first, middle, second, close, rest);
    BlockParts(open, first, middle, second, close, tail1);
    SelectStep(oracle, open, tail4, s, out, Seen(f, out));
    SeeAllStep(oracle, first, tail3, f, out, Seen(f, out));
    SelectStep(oracle, middle, tail2, f, out, Seen(g, out));
    SeeAllStep(oracle, second, tail1, g, out, Seen(g, out'));
    SelectStep(oracle, close, rest, g, out', Seen(s, out'));
  }

  // So the filter keeps the meaning of such a block, in any context, exactly if its
  // second part selects nothing there; what it does select is lost.
  lemma ElseOfWindowsBlockIsLost(
      oracle: Oracle, open: string, first: seq<string>, middle: string, second: seq<string>, close: string,
      s: seq<Frame>, out: seq<string>)
    requires WindowsBlockWithElse(open, first, middle, second, close)
    ensures var block := Block(open, first, middle, second, close);
      && DropWindows(block, false) == []
      && (Select(oracle, DropWindows(block, false), s, out) == Select(oracle, block, s, out)
          <==> Select(oracle, second, s + [Frame(Active(s), true)], out) == out)
  {
    var block := Block(open, first, middle, second, close);
    assert block + [] == block;
    BlockIsDropped(open, first, middle, second, close, []);
    ElseOfWindowsBlockIsSelected(oracle, open, first, middle, second, close, [], s, out);
  }

  // -------------------------------------------------- the #else of a Linux block

  // #ifdef SYS_LINUX, `first`, #else, `second`, #endif, with the marks where the
  // filter looks for them and nowhere in between.
  predicate LinuxBlockWithElse(open: string, first: seq<string>, middle: string, second: seq<string>, close: string) {
    && Read(open) == Ifdef("SYS_LINUX") && IsLinuxMark(open)
    && Read(middle) == Else && !IsLinuxMark(middle)
    && Read(close) == Endif && IsLinuxMark(close)
    && Nested(first, 0) && Nested(second, 0)
    && (forall i :: 0 <= i < |first| ==> !IsLinuxMark(first[i]))
    && (forall i :: 0 <= i < |second| ==> !IsLinuxMark(second[i]))
  }

  lemma {:induction false} UnmarkedIsKept(lines: seq<string>, rest: seq<string>)
    requires forall i :: 0 <= i < |lines| ==> !IsLinuxMark(lines[i])
    ensures DropLinux(lines + rest) == lines + DropLinux(rest)
  {
    if lines == [] {
      assert lines + rest == rest;
    } else {
      assert (lines + rest)[1..] == lines[1..] + rest;
      UnmarkedIsKept(lines[1..], rest);
      assert lines == [lines[0]] + lines[1..];
    }
  }

  lemma MarkIsDropped(l: string, rest: seq<string>)
    ensures IsLinuxMark(l) ==> DropLinux([l] + rest) == DropLinux(rest)
  {
    assert ([l] + rest)[1..] == rest;
  }

  // The filter removes the two ends and leaves the #else where it stands ...
  lemma EndsAreDropped(
      open: string, first: seq<string>, middle: string, second: seq<string>, close: string, rest: seq<string>)
    requires LinuxBlockWithElse(open, first, middle, second, close)
    ensures DropLinux(Block(open, first, middle, second, close) + rest)
         == first + ([middle] + (second + DropLinux(rest)))
  {
    var inner := Inner(first, middle, second);
    BlockParts(open, first, middle, second, close, rest);
    BlockParts(open, first, middle, second, close, DropLinux(rest));
    forall i | 0 <= i < |inner| ensures !IsLinuxMark(inner[i]) { InnerLines(first, middle, second, i); }
    MarkIsDropped(open, inner + ([close] + rest));
    UnmarkedIsKept(inner, [close] + rest);
    MarkIsDropped(close, rest);
  }

  // What nested lines select depends only on whether the frames below are active.
  lemma {:induction false} NestedOver(
      oracle: Oracle, lines: seq<string>, base: seq<Frame>, base2: seq<Frame>, above: seq<Frame>, out: seq<string>)
    requires Nested(lines, |above|) && (Active(base) <==> Active(base2))
    ensures SeeAll(oracle, lines, base + above, out).out == SeeAll(oracle, lines, base2 + above, out).out
    decreases |lines|
  {
    if lines != [] {
      var next := SeeTop(oracle, lines[0], Active(base), above, out);
      SeeAbove(oracle, lines[0], base, above, out);
      SeeAbove(oracle, lines[0], base2, above, out);
      NestedOver(oracle, lines[1..], base, base2, next.frames, next.out);
    }
  }

  // ... while on Linux the block selects what `first` does there, and no more.
  lemma ElseOfLinuxBlockIsPassedOver(
      oracle: Oracle, open: string, first: seq<string>, middle: string, second: seq<string>, close: string,
      rest: seq<string>, s: seq<Frame>, out: seq<string>)
    requires LinuxBlockWithElse(open, first, middle, second, close)
    ensures Select(oracle, Block(open, first, middle, second, close) + rest, s, out)
         == Select(oracle, rest, s, Select(oracle, first, s, out))
  {
    var f, out1 := s + [Frame(Active(s), true)], Select(oracle, first, s, out);
    var tail1 := [close] + rest;
    BlockParts(open, first, middle, second, close, rest);
    BlockParts(open, first, middle, second, close, tail1);
    LinuxFrames(oracle, open, middle, s, out);
    LinuxFrames(oracle, open, middle, s, out1);
    FirstPart(oracle, first, s, f, out);
    SelectStep(oracle, open, first + ([middle] + (second + tail1)), s, out, Seen(f, out));
    SeeAllStep(oracle, first, [middle] + (second + tail1), f, out, Seen(f, out1));
    SelectStep(oracle, middle, second + tail1, f, out1, Seen(s + [Frame(false, true)], out1));
    SecondPart(oracle, second, close, rest, s, out1);
  }

  lemma FirstPart(oracle: Oracle, first: seq<string>, s: seq<Frame>, f: seq<Frame>, out: seq<string>)
    requires Nested(first, 0) && (Active(s) <==> Active(f))
    ensures SeeAll(oracle, first, f, out) == Seen(f, Select(oracle, first, s, out))
  {
    NestedKeepsFrames(oracle, first, f, [], out);
    NestedOver(oracle, first, s, f, [], out);
    assert s + [] == s && f + [] == f && first + [] == first;
    SelectAppend(oracle, first, [], s, out);
  }

  lemma SecondPart(
      oracle: Oracle, second: seq<string>, close: string, rest: seq<string>, s: seq<Frame>, out: seq<string>)
    requires Nested(second, 0) && Read(close) == Endif
    ensures Select(oracle, second + ([close] + rest), s + [Frame(false, true)], out) == Select(oracle, rest, s, out)
  {
    var g := s + [Frame(false, true)];
    ActivePush(s, Frame(false, true));
    NestedKeepsFrames(oracle, second, g, [], out);
    assert g + [] == g && g[..|s|] == s;
    SeeAllStep(oracle, second, [close] + rest, g, out, Seen(g, out));
    SelectStep(oracle, close, rest, g, out, Seen(s, out));
  }

  lemma LinuxFrames(oracle: Oracle, open: string, middle: string, s: seq<Frame>, out: seq<string>)
    requires Read(open) == Ifdef("SYS_LINUX") && Read(middle) == Else
    ensures See(oracle, open, s, out) == Seen(s + [Frame(Active(s), true)], out)
    ensures See(oracle, middle, s + [Frame(Active(s), true)], out) == Seen(s + [Frame(false, true)], out)
    ensures Active(s + [Frame(Active(s), true)]) <==> Active(s)
    ensures !Active(s + [Frame(false, true)])
  {
    assert (s + [Frame(Active(s), true)])[..|s|] == s;
    ActivePush(s, Frame(Active(s), true));
    ActivePush(s, Frame(false, true));
  }

  // What the #else that stays behind makes of the conditionals around the block: it
  // ends the branch of the innermost one. With none open it is passed over (a
  // compiler reports it).
  ghost function AfterStrayElse(s: seq<Frame>): seq<Frame> {
    if s == [] then []
    else s[..|s| - 1] + [Frame(Active(s[..|s| - 1]) && !s[|s| - 1].taken, true)]
  }

  // So after the filter the block selects `first`, then `second` under the branch
  // that the stray #else opens, and leaves that branch to the rest.
  lemma StrayElseSelects(
      oracle: Oracle, first: seq<string>, middle: string, second: seq<string>, rest: seq<string>,
      s: seq<Frame>, out: seq<string>)
    requires Read(middle) == Else && Nested(first, 0) && Nested(second, 0)
    ensures var s', out1 := AfterStrayElse(s), Select(oracle, first, s, out);
      Select(oracle, first + ([middle] + (second + rest)), s, out)
      == Select(oracle, rest, s', Select(oracle, second, s', out1))
  {
    var s', out1 := AfterStrayElse(s), Select(oracle, first, s, out);
    NestedKeepsFrames(oracle, first, s, [], out);
    NestedKeepsFrames(oracle, second, s', [], out1);
    assert s + [] == s && s' + [] == s' && first + [] == first && second + [] == second;
    SelectAppend(oracle, first, [], s, out);
    SelectAppend(oracle, second, [], s', out1);
    SeeAllStep(oracle, first, [middle] + (second + rest), s, out, Seen(s, out1));
    SelectStep(oracle, middle, second + rest, s, out1, Seen(s', out1));
    SeeAllStep(oracle, second, rest, s', out1, Seen(s', Select(oracle, second, s', out1)));
  }

  // The filter keeps the meaning of such a block, in any context, exactly if its
  // second part selects nothing under the branch that the stray #else opens.
  lemma ElseOfLinuxBlockKeptIff(
      oracle: Oracle, open: string, first: seq<string>, middle: string, second: seq<string>, close: string,
      s: seq<Frame>, out: seq<string>)
    requires LinuxBlockWithElse(open, first, middle, second, close)
    ensures var block, out1 := Block(open, first, middle, second, close), Select(oracle, first, s, out);
      Select(oracle, DropLinux(block), s, out) == Select(oracle, block, s, out)
      <==> Select(oracle, second, AfterStrayElse(s), out1) == out1
  {
    var block := Block(open, first, middle, second, close);
    assert block + [] == block;
    EndsAreDropped(open, first, middle, second, close, []);
    ElseOfLinuxBlockIsPassedOver(oracle, open, first, middle, second, close, [], s, out);
    StrayElseSelects(oracle, first, middle, second, [], s, out);
  }

  // Inside an active conditional of another kind the block itself keeps its meaning,
  // but what follows it there is lost: whatever the nested lines `rest` select
  // before the filter, after it they select nothing.
  lemma StrayElseHidesRest(
      oracle: Oracle, open: string, first: seq<string>, middle: string, second: seq<string>, close: string,
      rest: seq<string>, s: seq<Frame>, out: seq<string>)
    requires LinuxBlockWithElse(open, first, middle, second, close)
    requires s != [] && s[|s| - 1].taken && Nested(rest, 0) && forall i :: 0 <= i < |rest| ==> !IsLinuxMark(rest[i])
    ensures var block, out1 := Block(open, first, middle, second, close), Select(oracle, first, s, out);
      && Select(oracle, block + rest, s, out) == Select(oracle, rest, s, out1)
      && Select(oracle, DropLinux(block + rest), s, out) == out1
  {
    var s', out1 := AfterStrayElse(s), Select(oracle, first, s, out);
    ActivePush(s[..|s| - 1], s'[|s'| - 1]);
    EndsAreDropped(open, first, middle, second, close, rest);
    UnmarkedIsKept(rest, []);
    assert rest + [] == rest;
    ElseOfLinuxBlockIsPassedOver(oracle, open, first, middle, second, close, rest, s, out);
    StrayElseSelects(oracle, first, middle, second, rest, s, out);
    SelectsNothing(oracle, second, s', out1);
    SelectsNothing(oracle, rest, s', out1);
  }

  lemma SelectsNothing(oracle: Oracle, lines: seq<string>, s: seq<Frame>, out: seq<string>)
    requires Nested(lines, 0) && !Active(s)
    ensures Select(oracle, lines, s, out) == out
  {
    assert s + [] == s && lines + [] == lines;
    NestedKeepsFrames(oracle, lines, s, [], out);
    SelectAppend(oracle, lines, [], s, out);
  }

  // --------------------------------------------------------- _proc on its own

  lemma {:induction false} DropWindowsLeavesNone(lines: seq<string>, skip: bool)
    ensures forall i :: 0 <= i < |DropWindows(lines, skip)| ==> !IsWinOpen(DropWindows(lines, skip)[i])
    decreases |lines|
  {
    if lines != [] {
      DropWindowsLeavesNone(lines[1..], false);
      DropWindowsLeavesNone(lines[1..], true);
    }
  }

  lemma {:induction false} DropWindowsKeepsOthers(lines: seq<string>)
    requires forall i :: 0 <= i < |lines| ==> !IsWinOpen(lines[i])
    ensures DropWindows(lines, false) == lines
    decreases |lines|
  {
    if lines != [] { DropWindowsKeepsOthers(lines[1..]); }
  }

  // _proc is idempotent, on every text file, labelled or not.
  lemma WindowsDroppedTwice(content: string)
    requires IsText(content)
    ensures WindowsDropped(WindowsDropped(content)) == WindowsDropped(content)
  {
    var kept := DropWindows(Split(content), false);
    LinesOfText(content);
    PiecesOfText(content);
    DropWindowsClean(Split(content), false);
    ReadBack(kept);
    DropWindowsLeavesNone(Split(content), false);
    if kept == [] {
      assert !IsWinOpen("");
      DropWindowsKeepsOthers([""]);
    } else {
      DropWindowsKeepsOthers(kept);
    }
  }

  lemma {:induction false} DropLinuxKeepsOthers(lines: seq<string>)
    requires forall i :: 0 <= i < |lines| ==> !IsLinuxMark(lines[i])
    ensures DropLinux(lines) == lines
  {
    if lines != [] { DropLinuxKeepsOthers(lines[1..]); }
  }

  // A text without a matching directive comes back byte for byte, its final
  // newline or the lack of one included.
  lemma UnmarkedFileIsReproduced(content: string)
    requires IsText(content)
    ensures (forall i :: 0 <= i < |Split(content)| ==> !IsWinOpen(Split(content)[i])) ==>
      WindowsDropped(content) == content
    ensures (forall i :: 0 <= i < |Split(content)| ==> !IsLinuxMark(Split(content)[i])) ==>
      LinuxDropped(content) == content
  {
    LinesOfText(content);
    JoinSplit(content);
    if forall i :: 0 <= i < |Split(content)| ==> !IsWinOpen(Split(content)[i]) {
      DropWindowsKeepsOthers(Split(content));
    }
    if forall i :: 0 <= i < |Split(content)| ==> !IsLinuxMark(Split(content)[i]) {
      DropLinuxKeepsOthers(Split(content));
    }
  }
}
