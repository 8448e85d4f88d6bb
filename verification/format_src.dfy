// The source filters of format_src/main.cpp: _proc drops the blocks marked
// SYS_WINDOWS, _proc3 the directives marked SYS_LINUX.
module LineFilters {
  import opened Prelude

  const BUFFER := 1024

  // ------------------------------------------------------------ lines of a file

  // The position of the first newline, or the length.
  function LineEnd(s: string): (k: nat)
    ensures k <= |s| && '\n' !in s[..k]
    ensures k < |s| ==> s[k] == '\n'
  {
    if s == "" || s[0] == '\n' then 0 else 1 + LineEnd(s[1..])
  }

  // The pieces between newlines; a final newline is followed by an empty piece.
  function Split(s: string): (lines: seq<string>)
    ensures |lines| >= 1
    decreases |s|
  {
    if LineEnd(s) == |s| then [s] else [s[..LineEnd(s)]] + Split(s[LineEnd(s) + 1..])
  }

  function Join(lines: seq<string>): string {
    if lines == [] then ""
    else if |lines| == 1 then lines[0]
    else lines[0] + "\n" + Join(lines[1..])
  }

  lemma {:induction false} JoinAppend(lines: seq<string>, l: string)
    ensures Join(lines + [l]) == if lines == [] then l else Join(lines) + "\n" + l
  {
    if |lines| == 1 {
      assert (lines + [l])[1..] == [l];
    } else if |lines| > 1 {
      assert (lines + [l])[1..] == lines[1..] + [l];
      JoinAppend(lines[1..], l);
    }
  }

  lemma CutAtNewline(s: string, k: nat)
    requires k < |s| && s[k] == '\n'
    ensures s[..k] + "\n" + s[k + 1..] == s
  {
    assert s[..k] + s[k..] == s;
    assert ['\n'] + s[k + 1..] == s[k..];
  }

  lemma JoinCons(l: string, lines: seq<string>)
    requires lines != []
    ensures Join([l] + lines) == l + "\n" + Join(lines)
  {
    assert ([l] + lines)[1..] == lines;
  }

  lemma {:induction false} JoinSplit(s: string)
    ensures Join(Split(s)) == s
    decreases |s|
  {
    var k := LineEnd(s);
    if k < |s| {
      JoinSplit(s[k + 1..]);
      JoinCons(s[..k], Split(s[k + 1..]));
      CutAtNewline(s, k);
    }
  }

  ghost predicate NoNewline(lines: seq<string>) {
    forall i :: 0 <= i < |lines| ==> '\n' !in lines[i]
  }

  lemma {:induction false} SplitHasNoNewline(s: string)
    ensures NoNewline(Split(s))
    decreases |s|
  {
    if LineEnd(s) < |s| { SplitHasNoNewline(s[LineEnd(s) + 1..]); }
    else { assert s[..LineEnd(s)] == s; }
  }

  lemma {:induction false} LineEndOf(l: string, rest: string)
    requires '\n' !in l
    ensures LineEnd(l + "\n" + rest) == |l| && LineEnd(l) == |l|
  {
    if l != "" {
      LineEndOf(l[1..], rest);
      assert (l + "\n" + rest)[1..] == l[1..] + "\n" + rest;
    }
  }

  lemma {:induction false} SplitJoin(lines: seq<string>)
    requires lines != [] && NoNewline(lines)
    ensures Split(Join(lines)) == lines
    decreases |lines|
  {
    if |lines| == 1 {
      LineEndOf(lines[0], "");
    } else {
      var rest := Join(lines[1..]);
      LineEndOf(lines[0], rest);
      SplitJoin(lines[1..]);
      assert Join(lines)[..|lines[0]|] == lines[0] && Join(lines)[|lines[0]| + 1..] == rest;
    }
  }

  // ---------------------------------------------------- istream::getline(buf, n)

  datatype Stream = Stream(rest: string, eof: bool, fail: bool)

  // A line longer than the buffer sets failbit; from then on nothing is read.
  function GetLine(st: Stream): (Stream, string) {
    var k := LineEnd(st.rest);
    if st.fail || st.eof then (st.(fail := true), "")
    else if k >= BUFFER then (Stream(st.rest[BUFFER - 1..], false, true), st.rest[..BUFFER - 1])
    else if k == |st.rest| then (Stream("", true, k == 0), st.rest)
    else (Stream(st.rest[k + 1..], false, false), st.rest[..k])
  }

  // Every line leaves room for the terminator.
  predicate LinesFit(s: string)
    decreases |s|
  {
    LineEnd(s) < BUFFER && (LineEnd(s) < |s| ==> LinesFit(s[LineEnd(s) + 1..]))
  }

  function Open(s: string): Stream { Stream(s, false, false) }

  function AfterLines(st: Stream, n: nat): Stream
    decreases n
  {
    if n == 0 then st else AfterLines(GetLine(st).0, n - 1)
  }

  lemma {:induction false} StuckStream(st: Stream, n: nat)
    requires st.fail && !st.eof
    ensures !AfterLines(st, n).eof
    decreases n
  {
    if n > 0 { StuckStream(GetLine(st).0, n - 1); }
  }

  lemma {:induction false} EndsWhenLinesFit(s: string)
    requires LinesFit(s)
    ensures AfterLines(Open(s), |Split(s)|).eof
    decreases |s|
  {
    var k := LineEnd(s);
    if k < |s| {
      EndsWhenLinesFit(s[k + 1..]);
      assert |Split(s)| - 1 == |Split(s[k + 1..])|;
      assert GetLine(Open(s)).0 == Open(s[k + 1..]);
    } else {
      assert |Split(s)| - 1 == 0;
      assert AfterLines(GetLine(Open(s)).0, 0) == GetLine(Open(s)).0;
    }
  }

  lemma {:induction false} NeverEndsOtherwise(s: string, n: nat)
    requires !LinesFit(s)
    ensures !AfterLines(Open(s), n).eof
    decreases n
  {
    if n > 0 {
      var k := LineEnd(s);
      if k < |s| && k < BUFFER {
        NeverEndsOtherwise(s[k + 1..], n - 1);
      } else {
        StuckStream(GetLine(Open(s)).0, n - 1);
      }
    }
  }

  // The loop `while (!is.eof())` ends exactly for files whose lines fit the
  // buffer; one longer line and it writes newlines for ever.
  lemma LoopEndsIff(s: string)
    ensures LinesFit(s) <==> exists n: nat :: AfterLines(Open(s), n).eof
  {
    if LinesFit(s) {
      EndsWhenLinesFit(s);
    } else {
      forall n: nat ensures !AfterLines(Open(s), n).eof { NeverEndsOtherwise(s, n); }
    }
  }

  // ------------------------------------------------------------------ the marks

  predicate HasAt(l: string, what: string, i: nat) { i + |what| <= |l| && l[i..i + |what|] == what }

  predicate Has(l: string, what: string) { exists i :: 0 <= i <= |l| && HasAt(l, what, i) }

  predicate IsWinOpen(l: string) { Has(l, "#ifdef") && Has(l, "SYS_WINDOWS") }
  predicate IsWinClose(l: string) { Has(l, "#endif") && Has(l, "SYS_WINDOWS") }
  predicate IsLinuxMark(l: string) {
    (Has(l, "#ifdef") && Has(l, "SYS_LINUX")) || (Has(l, "#endif") && Has(l, "SYS_LINUX"))
  }

  // What `string(buf)` and `os << buf` see of a line.
  function CStr(l: string): string {
    if l == "" || l[0] == '\0' then "" else [l[0]] + CStr(l[1..])
  }

  function CStrs(lines: seq<string>): seq<string> {
    if lines == [] then [] else [CStr(lines[0])] + CStrs(lines[1..])
  }

  // The lines that _proc keeps; `skip` is bskip.
  function DropWindows(lines: seq<string>, skip: bool): seq<string> {
    if lines == [] then []
    else
      var skip1 := skip || IsWinOpen(lines[0]);
      if !skip1 then [lines[0]] + DropWindows(lines[1..], false)
      else DropWindows(lines[1..], !IsWinClose(lines[0]))
  }

  // The lines that _proc3 keeps.
  function DropLinux(lines: seq<string>): seq<string> {
    if lines == [] then []
    else if IsLinuxMark(lines[0]) then DropLinux(lines[1..])
    else [lines[0]] + DropLinux(lines[1..])
  }

  function WindowsDropped(content: string): string { Join(DropWindows(CStrs(Split(content)), false)) }
  function LinuxDropped(content: string): string { Join(DropLinux(CStrs(Split(content)))) }

  // The lines still to come.
  function Coming(st: Stream): seq<string> { if st.eof then [] else CStrs(Split(st.rest)) }

  // One turn of a loop takes one line, and the last line sets eof.
  lemma LineTaken(st: Stream)
    requires st == Open(st.rest) && LinesFit(st.rest)
    ensures var (st', line) := GetLine(st);
      && Coming(st) == [CStr(line)] + Coming(st')
      && (!st'.eof ==> st' == Open(st'.rest) && LinesFit(st'.rest) && |st'.rest| < |st.rest|)
  {
    var (st', line) := GetLine(st);
    var lines := Split(st.rest);
    assert lines[0] == line == st.rest[..LineEnd(st.rest)];
    assert Coming(st) == [CStr(line)] + CStrs(lines[1..]);
    if st'.eof { assert lines[1..] == []; } else { assert lines[1..] == Split(st'.rest); }
  }

  method StripWindows(content: string) returns (os: string)
    requires LinesFit(content)
    ensures os == WindowsDropped(content)
  {
    var st := Open(content);
    os := "";
    var bskip, bfirst := false, true;
    ghost var done: seq<string> := [];
    while !st.eof
      invariant !st.eof ==> st == Open(st.rest) && LinesFit(st.rest)
      invariant DropWindows(CStrs(Split(content)), false) == done + DropWindows(Coming(st), bskip)
      invariant os == Join(done) && (bfirst <==> done == [])
      decreases !st.eof, |st.rest|
    {
      LineTaken(st);
      var read := GetLine(st);
      st := read.0;
      var buf := CStr(read.1);
      if IsWinOpen(buf) {
        bskip := true;
      }
      if !bskip {
        JoinAppend(done, buf);
        if bfirst {
          bfirst := false;
        } else {
          os := os + "\n";
        }
        os := os + buf;
        Regroup(done, [buf], DropWindows(Coming(st), false));
        done := done + [buf];
      } else if IsWinClose(buf) {
        bskip := false;
      }
    }
    assert done + [] == done;
  }

  method StripLinux(content: string) returns (os: string)
    requires LinesFit(content)
    ensures os == LinuxDropped(content)
  {
    var st := Open(content);
    os := "";
    var bfirst := true;
    ghost var done: seq<string> := [];
    while !st.eof
      invariant !st.eof ==> st == Open(st.rest) && LinesFit(st.rest)
      invariant DropLinux(CStrs(Split(content))) == done + DropLinux(Coming(st))
      invariant os == Join(done) && (bfirst <==> done == [])
      decreases !st.eof, |st.rest|
    {
      LineTaken(st);
      var read := GetLine(st);
      st := read.0;
      var buf := CStr(read.1);
      if !IsLinuxMark(buf) {
        JoinAppend(done, buf);
        if bfirst {
          bfirst := false;
        } else {
          os := os + "\n";
        }
        os := os + buf;
        Regroup(done, [buf], DropLinux(Coming(st)));
        done := done + [buf];
      }
    }
    assert done + [] == done;
  }

  // ------------------------------------------------------- one filter after the other

  ghost predicate AllFit(lines: seq<string>) {
    forall i :: 0 <= i < |lines| ==> |lines[i]| < BUFFER && '\n' !in lines[i]
  }

  lemma {:induction false} PiecesFit(s: string)
    requires LinesFit(s)
    ensures AllFit(Split(s))
    decreases |s|
  {
    var k := LineEnd(s);
    if k < |s| { PiecesFit(s[k + 1..]); } else { assert s[..k] == s; }
  }

  lemma {:induction false} CStrFits(l: string)
    ensures |CStr(l)| <= |l| && ('\n' !in l ==> '\n' !in CStr(l))
  {
    if l != "" { CStrFits(l[1..]); }
  }

  lemma {:induction false} CStrsFit(lines: seq<string>)
    requires AllFit(lines)
    ensures AllFit(CStrs(lines))
  {
    if lines != [] {
      CStrFits(lines[0]);
      CStrsFit(lines[1..]);
    }
  }

  lemma {:induction false} DropWindowsFits(lines: seq<string>, skip: bool)
    requires AllFit(lines)
    ensures AllFit(DropWindows(lines, skip))
    decreases |lines|
  {
    if lines != [] {
      DropWindowsFits(lines[1..], false);
      DropWindowsFits(lines[1..], true);
    }
  }

  lemma {:induction false} JoinFits(lines: seq<string>)
    requires AllFit(lines)
    ensures LinesFit(Join(lines))
  {
    if |lines| == 1 {
      LineEndOf(lines[0], "");
    } else if |lines| > 1 {
      var rest := Join(lines[1..]);
      LineEndOf(lines[0], rest);
      JoinFits(lines[1..]);
      assert Join(lines)[|lines[0]| + 1..] == rest;
    }
  }

  // If the first filter ends on a file, the second ends on what it has written.
  lemma WindowsDroppedFits(content: string)
    requires LinesFit(content)
    ensures LinesFit(WindowsDropped(content))
  {
    PiecesFit(content);
    CStrsFit(Split(content));
    DropWindowsFits(CStrs(Split(content)), false);
    JoinFits(DropWindows(CStrs(Split(content)), false));
  }

  // The two passes of main over one file.
  method Format(content: string) returns (os: string)
    requires LinesFit(content)
    ensures os == LinuxDropped(WindowsDropped(content))
  {
    var formatted := StripWindows(content);
    WindowsDroppedFits(content);
    os := StripLinux(formatted);
  }
}
