// Labelled sources by their texts: what the filters do to them is said here without
// the filters' own notion of a mark.
module SourceLabels {
  import opened Prelude
  import opened LineFilters
  import opened Preprocessor
  import opened FormatMeaning

  // ----------------------------------------------------------------- texts in a line

  ghost predicate Mentions(l: string, what: string) { exists a, b :: l == a + what + b }

  ghost predicate StandsAt(l: string, what: string, i: nat) { i + |what| <= |l| && l[i..i + |what|] == what }

  lemma MentionAt(l: string, what: string)
    ensures Mentions(l, what) <==> exists i: nat :: StandsAt(l, what, i)
  {
    if a, b :| l == a + what + b { assert StandsAt(l, what, |a|); }
    if i: nat :| StandsAt(l, what, i) { assert l == l[..i] + what + l[i + |what|..]; }
  }

  lemma MentionIsFound(l: string, what: string)
    ensures Has(l, what) <==> Mentions(l, what)
  {
    MentionAt(l, what);
    if i :| 0 <= i <= |l| && HasAt(l, what, i) { assert StandsAt(l, what, i); }
    if i: nat :| StandsAt(l, what, i) { assert HasAt(l, what, i); }
  }

  // What the filters look for, on every line.
  lemma MarksByText(l: string)
    ensures IsWinOpen(l) <==> Mentions(l, "#ifdef") && Mentions(l, "SYS_WINDOWS")
    ensures IsWinClose(l) <==> Mentions(l, "#endif") && Mentions(l, "SYS_WINDOWS")
    ensures IsLinuxMark(l) <==> (Mentions(l, "#ifdef") || Mentions(l, "#endif")) && Mentions(l, "SYS_LINUX")
  {
    MentionIsFound(l, "#ifdef");
    MentionIsFound(l, "#endif");
    MentionIsFound(l, "SYS_WINDOWS");
    MentionIsFound(l, "SYS_LINUX");
  }

  lemma MentionInTail(head: string, tail: string, what: string)
    ensures Mentions(tail, what) ==> Mentions(head + tail, what)
  {
    if a, b :| tail == a + what + b { assert head + tail == (head + a) + what + b; }
  }

  lemma MentionAtHead(what: string, tail: string)
    ensures Mentions(what + tail, what)
  {
    assert what + tail == [] + what + tail;
  }

  // ----------------------------------------------------------------- kinds of lines

  // A text after a word that it does not prolong.
  predicate Ends(tail: string) { tail == "" || !IsWordChar(tail[0]) }

  // #ifdef SYS_WINDOWS and a tail; likewise for Linux.
  ghost predicate OpensWindows(l: string) {
    exists tail :: l == "#ifdef " + "SYS_WINDOWS" + tail && Ends(tail) && !Mentions(l, "#endif")
  }

  ghost predicate OpensLinux(l: string) {
    exists tail :: l == "#ifdef " + "SYS_LINUX" + tail && Ends(tail) && !Mentions(l, "SYS_WINDOWS")
  }

  // #endif with the mark behind it, as in "#endif // SYS_WINDOWS".
  ghost predicate ClosesWindows(l: string) {
    exists tail :: l == "#endif" + tail && Ends(tail) && Mentions(tail, "SYS_WINDOWS")
  }

  ghost predicate ClosesLinux(l: string) {
    exists tail :: l == "#endif" + tail && Ends(tail) && Mentions(tail, "SYS_LINUX") && !Mentions(l, "SYS_WINDOWS")
  }

  ghost predicate Unmarked(l: string) { !Mentions(l, "SYS_WINDOWS") && !Mentions(l, "SYS_LINUX") }

  // ------------------------------------------------------ what the compiler reads

  lemma {:induction false} WordOf(w: string, tail: string)
    requires (forall i :: 0 <= i < |w| ==> IsWordChar(w[i])) && Ends(tail)
    ensures Word(w + tail) == w
  {
    if w == "" {
      assert w + tail == tail;
    } else {
      assert (w + tail)[1..] == w[1..] + tail;
      WordOf(w[1..], tail);
    }
  }

  lemma IfdefIsRead(name: string, tail: string)
    requires name != "" && (forall i :: 0 <= i < |name| ==> IsWordChar(name[i])) && Ends(tail)
    ensures Read("#ifdef " + name + tail) == Ifdef(name)
  {
    var l := "#ifdef " + name + tail;
    var rest := " " + name + tail;
    assert l[1..] == "ifdef" + rest;
    WordOf("ifdef", rest);
    assert ("ifdef" + rest)[5..] == rest;
    assert rest[1..] == name + tail;
    assert SkipBlanks(rest) == name + tail;
    WordOf(name, tail);
  }

  lemma EndifIsRead(tail: string)
    requires Ends(tail)
    ensures Read("#endif" + tail) == Endif
  {
    assert ("#endif" + tail)[1..] == "endif" + tail;
    WordOf("endif", tail);
  }

  lemma {:induction false} BlanksAreSkipped(s: string) returns (a: string)
    ensures s == a + SkipBlanks(s)
  {
    if s != "" && IsBlank(s[0]) {
      var a1 := BlanksAreSkipped(s[1..]);
      a := [s[0]] + a1;
      assert s == [s[0]] + s[1..];
      Regroup([s[0]], a1, SkipBlanks(s));
    } else {
      a := "";
    }
  }

  lemma {:induction false} WordIsPrefix(s: string)
    ensures s == Word(s) + s[|Word(s)|..]
  {
    if s != "" && IsWordChar(s[0]) {
      WordIsPrefix(s[1..]);
      assert s == [s[0]] + s[1..];
    }
  }

  // The name in an #ifdef stands in the line.
  lemma NameIsMentioned(l: string)
    ensures Read(l).Ifdef? ==> Mentions(l, Read(l).name)
  {
    if Read(l).Ifdef? {
      var t := SkipBlanks(l);
      var u := SkipBlanks(t[1..]);
      var v := SkipBlanks(u[|Word(u)|..]);
      var a := BlanksAreSkipped(l);
      var b := BlanksAreSkipped(t[1..]);
      var c := BlanksAreSkipped(u[|Word(u)|..]);
      WordIsPrefix(u);
      WordIsPrefix(v);
      assert t == [t[0]] + t[1..];
      Chain(l, a, [t[0]], b, Word(u), c, Word(v), v[|Word(v)|..]);
    }
  }

  lemma Chain(l: string, a: string, h: string, b: string, w: string, c: string, name: string, rest: string)
    requires l == a + (h + (b + (w + (c + (name + rest)))))
    ensures Mentions(l, name)
  {
    var before := a + h + b + w + c;
    assert l == before + name + rest;
  }

  // --------------------------------------------------------------- labelled sources

  // One line inside the open conditionals `k`, by its text: the marked blocks close
  // under their own mark, no Windows block lies in another, no #else or #elif belongs
  // to a marked block, and no other line mentions a mark.
  ghost predicate LabelledLine(l: string, k: seq<Kind>) {
    || (OpensWindows(l) && Win !in k)
    || OpensLinux(l)
    || (ClosesWindows(l) && k != [] && k[|k| - 1] == Win)
    || (ClosesLinux(l) && k != [] && k[|k| - 1] == Lin)
    || (Unmarked(l) && (Read(l).Endif? || Read(l).Else? || Read(l).Elif? ==> k != [] && k[|k| - 1] == Other))
  }

  ghost function KindsByText(l: string, k: seq<Kind>): seq<Kind> {
    if OpensWindows(l) then k + [Win]
    else if OpensLinux(l) then k + [Lin]
    else if ClosesWindows(l) || ClosesLinux(l) || Read(l).Endif? then (if k == [] then k else k[..|k| - 1])
    else if Opens(l) then k + [Other]
    else k
  }

  ghost predicate Labelled(lines: seq<string>, k: seq<Kind>)
    decreases |lines|
  {
    if lines == [] then k == []
    else LabelledLine(lines[0], k) && Labelled(lines[1..], KindsByText(lines[0], k))
  }

  lemma MarkOpening(l: string, name: string, tail: string)
    requires l == "#ifdef " + name + tail && Ends(tail)
    requires name != "" && forall i :: 0 <= i < |name| ==> IsWordChar(name[i])
    ensures Read(l) == Ifdef(name) && Mentions(l, "#ifdef") && Mentions(l, name)
  {
    IfdefIsRead(name, tail);
    assert l == "#ifdef" + (" " + name + tail);
    MentionAtHead("#ifdef", " " + name + tail);
  }

  lemma WindowsOpening(l: string)
    requires OpensWindows(l)
    ensures Read(l) == Ifdef("SYS_WINDOWS") && IsWinOpen(l) && !IsWinClose(l)
  {
    var tail :| l == "#ifdef " + "SYS_WINDOWS" + tail && Ends(tail);
    MarkOpening(l, "SYS_WINDOWS", tail);
    MarksByText(l);
  }

  lemma LinuxOpening(l: string)
    requires OpensLinux(l)
    ensures Read(l) == Ifdef("SYS_LINUX") && IsLinuxMark(l) && !IsWinOpen(l) && !IsWinClose(l)
  {
    var tail :| l == "#ifdef " + "SYS_LINUX" + tail && Ends(tail);
    MarkOpening(l, "SYS_LINUX", tail);
    MarksByText(l);
  }

  lemma WindowsClosing(l: string)
    requires ClosesWindows(l)
    ensures Read(l) == Endif && IsWinClose(l)
  {
    var tail :| l == "#endif" + tail && Ends(tail) && Mentions(tail, "SYS_WINDOWS");
    EndifIsRead(tail);
    MarksByText(l);
    MentionAtHead("#endif", tail);
    MentionInTail("#endif", tail, "SYS_WINDOWS");
  }

  lemma LinuxClosing(l: string)
    requires ClosesLinux(l)
    ensures Read(l) == Endif && IsLinuxMark(l) && !IsWinOpen(l) && !IsWinClose(l)
  {
    var tail :| l == "#endif" + tail && Ends(tail) && Mentions(tail, "SYS_LINUX");
    EndifIsRead(tail);
    MarksByText(l);
    MentionAtHead("#endif", tail);
    MentionInTail("#endif", tail, "SYS_LINUX");
  }

  lemma UnmarkedLine(l: string)
    requires Unmarked(l)
    ensures !IsWinOpen(l) && !IsWinClose(l) && !IsLinuxMark(l)
    ensures Read(l) != Ifdef("SYS_WINDOWS") && Read(l) != Ifdef("SYS_LINUX")
  {
    MarksByText(l);
    NameIsMentioned(l);
  }

  lemma LabelledLineIsOk(l: string, k: seq<Kind>)
    requires LabelledLine(l, k)
    ensures LineOk(l, k) && KindsAfter(l, k) == KindsByText(l, k)
  {
    if OpensWindows(l) || OpensLinux(l) { OpeningLineIsOk(l, k); }
    else if ClosesWindows(l) || ClosesLinux(l) { ClosingLineIsOk(l, k); }
    else { UnmarkedLine(l); }
  }

  lemma OpeningLineIsOk(l: string, k: seq<Kind>)
    requires LabelledLine(l, k) && (OpensWindows(l) || OpensLinux(l))
    ensures LineOk(l, k) && KindsAfter(l, k) == KindsByText(l, k)
  {
    if OpensWindows(l) { WindowsOpening(l); } else { LinuxOpening(l); }
    if ClosesWindows(l) { WindowsClosing(l); }
    if ClosesLinux(l) { LinuxClosing(l); }
    if Unmarked(l) { UnmarkedLine(l); }
  }

  lemma ClosingLineIsOk(l: string, k: seq<Kind>)
    requires LabelledLine(l, k) && (ClosesWindows(l) || ClosesLinux(l)) && !OpensWindows(l) && !OpensLinux(l)
    ensures LineOk(l, k) && KindsAfter(l, k) == KindsByText(l, k)
  {
    UnmarkedIsNoClosing(l);
    if ClosesWindows(l) {
      WindowsClosing(l);
      if ClosesLinux(l) { LinuxClosing(l); }
      assert k != [] && k[|k| - 1] == Win;
    } else {
      LinuxClosing(l);
      assert k != [] && k[|k| - 1] == Lin;
      assert Read(l) == Endif;
    }
    assert !Opens(l);
  }

  lemma UnmarkedIsNoClosing(l: string)
    ensures Unmarked(l) ==> !ClosesWindows(l) && !ClosesLinux(l)
  {
    if Unmarked(l) { UnmarkedLine(l); }
    if ClosesWindows(l) { WindowsClosing(l); }
    if ClosesLinux(l) { LinuxClosing(l); }
  }

  lemma {:induction false} LabelledIsWellLabelled(lines: seq<string>, k: seq<Kind>)
    requires Labelled(lines, k)
    ensures WellLabelled(lines, k)
    decreases |lines|
  {
    if lines != [] {
      LabelledLineIsOk(lines[0], k);
      LabelledIsWellLabelled(lines[1..], KindsByText(lines[0], k));
    }
  }

  // For every source that is labelled by its text, what a compiler on Linux selects is
  // the same before and after the two filters (but for one empty line when nothing
  // remains).
  lemma LabelledFileMeansTheSame(oracle: Oracle, content: string)
    requires IsText(content) && Labelled(Split(content), [])
    ensures var out, before := LinuxDropped(WindowsDropped(content)), Select(oracle, Split(content), [], []);
      Select(oracle, Split(out), [], []) == before || (before == [] && out == "")
  {
    LabelledIsWellLabelled(Split(content), []);
    FormattedFileMeansTheSame(oracle, content);
    if Final(Split(content), false) == [] { NothingRemains(content); }
  }

  lemma NothingRemains(content: string)
    requires IsText(content) && Final(Split(content), false) == []
    ensures LinuxDropped(WindowsDropped(content)) == ""
  {
    var lines := Split(content);
    LinesOfText(content);
    PiecesOfText(content);
    var kept := DropWindows(lines, false);
    DropWindowsClean(lines, false);
    ReadBack(kept);
    UnmarkedEmpty();
    assert DropLinux([""]) == [""];
  }

  lemma UnmarkedEmpty()
    ensures !IsLinuxMark("") && DropLinux([""]) == [""]
  {
    assert !HasAt("", "SYS_LINUX", 0);
    assert [""][1..] == [];
  }

  // ------------------------------------------------------------------ single blocks

  // A Windows block goes as a whole, whatever its lines are, if only none of them
  // mentions its end; a Linux block loses its two ends and keeps its lines.
  lemma WindowsBlockByText(open: string, body: seq<string>, close: string, rest: seq<string>)
    requires OpensWindows(open) && ClosesWindows(close)
    requires forall i :: 0 <= i < |body| ==> !(Mentions(body[i], "#endif") && Mentions(body[i], "SYS_WINDOWS"))
    ensures DropWindows([open] + (body + ([close] + rest)), false) == DropWindows(rest, false)
  {
    WindowsOpening(open);
    WindowsClosing(close);
    forall i | 0 <= i < |body| ensures !IsWinClose(body[i]) { MarksByText(body[i]); }
    assert ([open] + (body + ([close] + rest)))[1..] == body + ([close] + rest);
    SkippedToClose(body, close, rest);
  }

  lemma LinuxBlockByText(open: string, body: seq<string>, close: string, rest: seq<string>)
    requires OpensLinux(open) && ClosesLinux(close)
    requires forall i :: 0 <= i < |body| ==> !Mentions(body[i], "SYS_LINUX")
    ensures DropLinux([open] + (body + ([close] + rest))) == body + DropLinux(rest)
  {
    LinuxOpening(open);
    LinuxClosing(close);
    forall i | 0 <= i < |body| ensures !IsLinuxMark(body[i]) { MarksByText(body[i]); }
    MarkIsDropped(open, body + ([close] + rest));
    UnmarkedIsKept(body, [close] + rest);
    MarkIsDropped(close, rest);
  }

  // The blocks with an #else are those of the text, too.
  lemma WindowsElseByText(open: string, first: seq<string>, middle: string, second: seq<string>, close: string)
    requires OpensWindows(open) && Read(middle) == Else && !Mentions(middle, "SYS_WINDOWS") && ClosesWindows(close)
    requires Nested(first, 0) && forall i :: 0 <= i < |first| ==> !Mentions(first[i], "SYS_WINDOWS")
    requires Nested(second, 0) && forall i :: 0 <= i < |second| ==> !Mentions(second[i], "SYS_WINDOWS")
    ensures WindowsBlockWithElse(open, first, middle, second, close)
  {
    WindowsOpening(open);
    WindowsClosing(close);
    MarksByText(middle);
    forall i | 0 <= i < |first| ensures !IsWinClose(first[i]) { MarksByText(first[i]); }
    forall i | 0 <= i < |second| ensures !IsWinClose(second[i]) { MarksByText(second[i]); }
  }

  lemma LinuxElseByText(open: string, first: seq<string>, middle: string, second: seq<string>, close: string)
    requires OpensLinux(open) && Read(middle) == Else && !Mentions(middle, "SYS_LINUX") && ClosesLinux(close)
    requires Nested(first, 0) && forall i :: 0 <= i < |first| ==> !Mentions(first[i], "SYS_LINUX")
    requires Nested(second, 0) && forall i :: 0 <= i < |second| ==> !Mentions(second[i], "SYS_LINUX")
    ensures LinuxBlockWithElse(open, first, middle, second, close)
  {
    LinuxOpening(open);
    LinuxClosing(close);
    MarksByText(middle);
    forall i | 0 <= i < |first| ensures !IsLinuxMark(first[i]) { MarksByText(first[i]); }
    forall i | 0 <= i < |second| ensures !IsLinuxMark(second[i]) { MarksByText(second[i]); }
  }

  // The texts of the source's own idiom.
  lemma LiteralLinuxMarks()
    ensures OpensLinux("#ifdef " + "SYS_LINUX") && ClosesLinux("#endif" + " // SYS_LINUX")
  {
    NoMention("#ifdef " + "SYS_LINUX", "SYS_WINDOWS");
    NoMention("#endif" + " // SYS_LINUX", "SYS_WINDOWS");
    assert "#ifdef " + "SYS_LINUX" == "#ifdef " + "SYS_LINUX" + "";
    assert " // SYS_LINUX" == " // " + "SYS_LINUX" + "";
  }

  lemma LiteralWindowsMarks()
    ensures OpensWindows("#ifdef " + "SYS_WINDOWS") && ClosesWindows("#endif" + " // SYS_WINDOWS")
  {
    NoMention("#ifdef " + "SYS_WINDOWS", "#endif");
    assert "#ifdef " + "SYS_WINDOWS" == "#ifdef " + "SYS_WINDOWS" + "";
    assert " // SYS_WINDOWS" == " // " + "SYS_WINDOWS" + "";
  }

  // No position of `l` begins with the first two characters of `what`.
  lemma NoMention(l: string, what: string)
    requires |what| >= 2
    requires forall i :: 0 <= i <= |l| - |what| ==> l[i] != what[0] || l[i + 1] != what[1]
    ensures !Mentions(l, what)
  {
    MentionAt(l, what);
    forall i: nat ensures !StandsAt(l, what, i) {
      if i + |what| <= |l| {
        assert l[i..i + |what|][0] == l[i] && l[i..i + |what|][1] == l[i + 1];
      }
    }
  }

  // ------------------------------------------------------------ line by line, any text

  // A line is dropped by the first filter exactly if some line at or before it opens a
  // Windows block and no line from there to before it closes one.
  ghost predicate InWindowsBlock(lines: seq<string>, i: nat)
    requires i < |lines|
  {
    exists j :: 0 <= j <= i && OpenFrom(lines, j, i)
  }

  ghost predicate OpenFrom(lines: seq<string>, j: nat, i: nat)
    requires j <= i < |lines|
  {
    && Mentions(lines[j], "#ifdef") && Mentions(lines[j], "SYS_WINDOWS")
    && forall m :: j <= m < i ==> !(Mentions(lines[m], "#endif") && Mentions(lines[m], "SYS_WINDOWS"))
  }

  // bskip after the lines, from the state before them.
  function SkipAfter(lines: seq<string>, skip: bool): bool
    decreases |lines|
  {
    if lines == [] then skip
    else SkipAfter(lines[1..], (skip || IsWinOpen(lines[0])) && !IsWinClose(lines[0]))
  }

  lemma {:induction false} DropWindowsAppend(lines: seq<string>, l: string, skip: bool)
    ensures DropWindows(lines + [l], skip)
         == DropWindows(lines, skip) + (if SkipAfter(lines, skip) || IsWinOpen(l) then [] else [l])
    decreases |lines|
  {
    if lines == [] {
      assert lines + [l] == [l] && [l][1..] == [];
    } else {
      assert (lines + [l])[1..] == lines[1..] + [l];
      DropWindowsAppend(lines[1..], l, (skip || IsWinOpen(lines[0])) && !IsWinClose(lines[0]));
    }
  }

  lemma {:induction false} SkipAfterAppend(lines: seq<string>, l: string, skip: bool)
    ensures SkipAfter(lines + [l], skip) == ((SkipAfter(lines, skip) || IsWinOpen(l)) && !IsWinClose(l))
    decreases |lines|
  {
    if lines == [] {
      assert lines + [l] == [l] && [l][1..] == [];
    } else {
      assert (lines + [l])[1..] == lines[1..] + [l];
      SkipAfterAppend(lines[1..], l, (skip || IsWinOpen(lines[0])) && !IsWinClose(lines[0]));
    }
  }

  lemma {:induction false} SkipMeansInBlock(lines: seq<string>, l: string)
    ensures InWindowsBlock(lines + [l], |lines|) <==> SkipAfter(lines, false) || IsWinOpen(l)
    decreases |lines|
  {
    var all, n := lines + [l], |lines|;
    MarksByText(l);
    if lines == [] {
      if IsWinOpen(l) { assert OpenFrom(all, 0, 0); }
    } else {
      var front, last := lines[..n - 1], lines[n - 1];
      assert lines == front + [last];
      SkipMeansInBlock(front, last);
      SkipAfterAppend(front, last, false);
      MarksByText(last);
      if IsWinOpen(l) { assert OpenFrom(all, n, n); }
      if j :| 0 <= j <= n && OpenFrom(all, j, n) {
        if j < n { OpenShorter(lines, l, j); }
      }
      if SkipAfter(lines, false) {
        var j :| 0 <= j <= n - 1 && OpenFrom(lines, j, n - 1);
        assert OpenFrom(all, j, n) by {
          forall m | j <= m < n ensures !(Mentions(all[m], "#endif") && Mentions(all[m], "SYS_WINDOWS")) {
            assert all[m] == lines[m];
          }
          assert all[j] == lines[j];
        }
      }
    }
  }

  lemma OpenShorter(lines: seq<string>, l: string, j: nat)
    requires j < |lines| && OpenFrom(lines + [l], j, |lines|)
    ensures OpenFrom(lines, j, |lines| - 1)
    ensures !(Mentions(lines[|lines| - 1], "#endif") && Mentions(lines[|lines| - 1], "SYS_WINDOWS"))
  {
    var all := lines + [l];
    forall m | j <= m < |lines| ensures !(Mentions(lines[m], "#endif") && Mentions(lines[m], "SYS_WINDOWS")) {
      assert all[m] == lines[m];
    }
    assert all[j] == lines[j];
  }

  // What the two filters do to the next line of any text, labelled or not.
  lemma NextLineIsKeptIff(lines: seq<string>, l: string)
    ensures DropWindows(lines + [l], false)
         == DropWindows(lines, false) + (if InWindowsBlock(lines + [l], |lines|) then [] else [l])
    ensures DropLinux(lines + [l]) == DropLinux(lines) +
      (if (Mentions(l, "#ifdef") || Mentions(l, "#endif")) && Mentions(l, "SYS_LINUX") then [] else [l])
  {
    DropWindowsAppend(lines, l, false);
    SkipMeansInBlock(lines, l);
    DropLinuxAppend(lines, l);
    MarksByText(l);
  }

  lemma {:induction false} DropLinuxAppend(lines: seq<string>, l: string)
    ensures DropLinux(lines + [l]) == DropLinux(lines) + (if IsLinuxMark(l) then [] else [l])
  {
    if lines == [] {
      assert lines + [l] == [l] && [l][1..] == [];
    } else {
      assert (lines + [l])[1..] == lines[1..] + [l];
      DropLinuxAppend(lines[1..], l);
    }
  }

  // --------------------------------------------------------------- the read buffer

  // The buffer of 1024 characters takes lines of up to 1023.
  predicate AllShort(lines: seq<string>) { forall i :: 0 <= i < |lines| ==> |lines[i]| <= 1023 }

  lemma {:induction false} LinesFitMeans(s: string)
    ensures LinesFit(s) <==> AllShort(Split(s))
    decreases |s|
  {
    var k := LineEnd(s);
    if k < |s| {
      LinesFitMeans(s[k + 1..]);
      ShortFirst(s[..k], Split(s[k + 1..]));
    } else {
      ShortFirst(s, []);
    }
  }

  lemma ShortFirst(l: string, rest: seq<string>)
    ensures AllShort([l] + rest) <==> |l| <= 1023 && AllShort(rest)
  {
    var all := [l] + rest;
    assert all[0] == l;
    if AllShort(all) {
      forall i | 0 <= i < |rest| ensures |rest[i]| <= 1023 { assert all[i + 1] == rest[i]; }
    }
  }

  // What is seen of a line ends before its first NUL.
  lemma {:induction false} CStrCuts(l: string)
    ensures CStr(l) <= l && '\0' !in CStr(l) && (CStr(l) == l || l[|CStr(l)|] == '\0')
  {
    if l != "" && l[0] != '\0' { CStrCuts(l[1..]); }
  }

  lemma {:induction false} CStrsCut(lines: seq<string>)
    ensures |CStrs(lines)| == |lines| && forall i :: 0 <= i < |lines| ==> CStrs(lines)[i] == CStr(lines[i])
  {
    if lines != [] { CStrsCut(lines[1..]); }
  }

  // So no NUL comes out of either filter, whatever goes in.
  lemma OutputIsText(content: string)
    ensures IsText(WindowsDropped(content)) && IsText(LinuxDropped(content))
  {
    var lines := CStrs(Split(content));
    CStrsCut(Split(content));
    SplitHasNoNewline(content);
    forall i | 0 <= i < |lines| ensures '\n' !in lines[i] && '\0' !in lines[i] {
      CStrCuts(Split(content)[i]);
      PrefixHasNo(CStr(Split(content)[i]), Split(content)[i], '\n');
    }
    DropWindowsClean(lines, false);
    DropLinuxClean(lines);
    JoinIsText(DropWindows(lines, false));
    JoinIsText(DropLinux(lines));
  }

  lemma PrefixHasNo(p: string, l: string, x: char)
    requires p <= l && x !in l
    ensures x !in p
  {
    forall k | 0 <= k < |p| ensures p[k] != x { assert p[k] == l[k]; }
  }
}
