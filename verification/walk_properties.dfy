// The work-list walk refines the recursive definition of what a tree offers.
module WalkProperties {
  import opened BackupTables
  import opened FileFrames

  // --------------------------------------------- what a tree offers, recursively

  // `rel` leads from these entries to `node` through readable folders.
  ghost predicate Reaches(entries: seq<Entry>, rel: Path, node: Node)
    decreases |rel|, 1
  {
    rel != [] && exists i :: 0 <= i < |entries| && Leads(entries[i], rel, node)
  }

  ghost predicate Leads(e: Entry, rel: Path, node: Node)
    requires rel != []
    decreases |rel|, 0
  {
    && e.name == rel[0]
    && if |rel| == 1 then e.node == node
       else e.node.Folder? && e.node.readable && Reaches(e.node.entries, rel[1..], node)
  }

  // Preorder: every folder, and every file that is wanted.
  function Offered(path: Path, entries: seq<Entry>, want: Node -> bool): seq<Visit>
    decreases entries
  {
    if entries == [] then []
    else
      OfferedBy(path + [entries[0].name], entries[0].node, want) + Offered(path, entries[1..], want)
  }

  function OfferedBy(p: Path, n: Node, want: Node -> bool): seq<Visit>
    decreases n
  {
    match n
    case File(_, _) => if want(n) then [Visit(p, n)] else []
    case Folder(readable, entries) => [Visit(p, n)] + (if readable then Offered(p, entries, want) else [])
  }

  function Below(w: Work, want: Node -> bool): seq<Visit> {
    if w.folder.Folder? && w.folder.readable then Offered(w.path, w.folder.entries, want) else []
  }

  function BelowAll(col: seq<Work>, want: Node -> bool): seq<Visit> {
    if col == [] then [] else Below(col[0], want) + BelowAll(col[1..], want)
  }

  function OfferedByRoot(root: Node, want: Node -> bool): seq<Visit> { Below(Work([], root), want) }

  // The filter answers stop, or else lets in exactly the folders and wanted files.
  ghost predicate Honest<S(!new)>(cb: Callbacks<S>, want: Node -> bool) {
    forall s: S, p: Path, n: Node ::
      cb.filter(s, p, n).1 in {FrameStop, if n.Folder? || want(n) then FilterIn else FilterOut}
  }

  // A stop is answered again when the same entry is filtered a second time.
  ghost predicate Sticky<S(!new)>(cb: Callbacks<S>) {
    forall s: S, p: Path, n: Node ::
      cb.filter(s, p, n).1 == FrameStop ==> cb.filter(cb.filter(s, p, n).0, p, n).1 == FrameStop
  }

  // ------------------------------------------------------------- completeness

  lemma {:induction false} BelowAllAppend(a: seq<Work>, b: seq<Work>, want: Node -> bool)
    ensures BelowAll(a + b, want) == BelowAll(a, want) + BelowAll(b, want)
  {
    if a == [] {
      assert a + b == b;
    } else {
      assert (a + b)[1..] == a[1..] + b;
      BelowAllAppend(a[1..], b, want);
    }
  }

  lemma OfferedByParts(p: Path, n: Node, want: Node -> bool)
    requires n.Folder? || want(n)
    ensures OfferedBy(p, n, want) == [Visit(p, n)] + BelowAll(AsWork(p, n), want)
  {
    if n.Folder? {
      assert BelowAll([Work(p, n)], want) == Below(Work(p, n), want) + BelowAll([], want);
    }
  }

  // One entry of a folder that is scanned to its end.
  lemma ScanOffersFirst<S(!new)>(
      cb: Callbacks<S>, want: Node -> bool, s: S, path: Path, entries: seq<Entry>, next: S)
    requires entries != [] && Honest(cb, want) && Sticky(cb) && !ScanOf(cb, s, path, entries).stopped
    requires var p, n := path + [entries[0].name], entries[0].node;
      var (s1, v1) := cb.filter(s, p, n);
      next == if v1 == FilterIn then cb.process(s1, p, n) else cb.filter(s1, p, n).0
    ensures var p, n := path + [entries[0].name], entries[0].node;
      var scan, rest := ScanOf(cb, s, path, entries), ScanOf(cb, next, path, entries[1..]);
      && !rest.stopped
      && if n.Folder? || want(n)
         then scan.calls == [Visit(p, n)] + rest.calls && scan.found == AsWork(p, n) + rest.found
         else scan.calls == rest.calls && scan.found == rest.found
  {
  }

  lemma RegroupCalls(first: seq<Visit>, below: seq<Visit>, rest: seq<Visit>, calls: seq<Visit>, later: seq<Visit>)
    requires multiset(rest) == multiset(calls) + multiset(later)
    ensures multiset((first + below) + rest) == multiset(first + calls) + multiset(below + later)
  {
  }

  lemma {:induction false} ScanOffers<S(!new)>(
      cb: Callbacks<S>, want: Node -> bool, s: S, path: Path, entries: seq<Entry>)
    requires Honest(cb, want) && Sticky(cb) && !ScanOf(cb, s, path, entries).stopped
    ensures var scan := ScanOf(cb, s, path, entries);
      multiset(Offered(path, entries, want)) == multiset(scan.calls) + multiset(BelowAll(scan.found, want))
    decreases |entries|
  {
    if entries != [] {
      var p, n := path + [entries[0].name], entries[0].node;
      var (s1, v1) := cb.filter(s, p, n);
      var next := if v1 == FilterIn then cb.process(s1, p, n) else cb.filter(s1, p, n).0;
      ScanOffersFirst(cb, want, s, path, entries, next);
      ScanOffers(cb, want, next, path, entries[1..]);
      var rest := ScanOf(cb, next, path, entries[1..]);
      if n.Folder? || want(n) {
        OfferedByParts(p, n, want);
        BelowAllAppend(AsWork(p, n), rest.found, want);
        RegroupCalls([Visit(p, n)], BelowAll(AsWork(p, n), want),
                Offered(path, entries[1..], want), rest.calls, BelowAll(rest.found, want));
      } else {
        assert Offered(path, entries, want) == [] + Offered(path, entries[1..], want);
      }
    }
  }

  lemma {:induction false} WalkOffers<S(!new)>(cb: Callbacks<S>, want: Node -> bool, s: S, col: seq<Work>)
    requires Honest(cb, want) && Sticky(cb) && !WalkOf(cb, s, col).stopped
    ensures multiset(WalkOf(cb, s, col).calls) == multiset(BelowAll(col, want))
    decreases QueueSize(col)
  {
    if col != [] {
      var w := col[0];
      var scan := SearchOf(cb, s, w);
      if w.folder.Folder? && w.folder.readable {
        ScanOffers(cb, want, s, w.path, w.folder.entries);
      }
      QueueSizeAppend(col[1..], scan.found);
      BelowAllAppend(col[1..], scan.found, want);
      WalkOffers(cb, want, scan.state, col[1..] + scan.found);
    }
  }

  // ------------------------------------------------------------- no duplicates

  // Sibling names differ, at every level.
  ghost predicate WellNamed(entries: seq<Entry>) {
    && (forall i, j :: 0 <= i < j < |entries| ==> entries[i].name != entries[j].name)
    && (forall i :: 0 <= i < |entries| && entries[i].node.Folder? ==> WellNamed(entries[i].node.entries))
  }

  ghost predicate Under(path: Path, name: string, v: Visit) {
    |v.path| > |path| && v.path[..|path|] == path && v.path[|path|] == name
  }

  lemma {:induction false} OfferedUnder(path: Path, entries: seq<Entry>, want: Node -> bool)
    ensures forall v :: v in Offered(path, entries, want) ==>
      exists i :: 0 <= i < |entries| && Under(path, entries[i].name, v)
    decreases entries
  {
    if entries != [] {
      OfferedByUnder(path, entries[0].name, entries[0].node, want);
      OfferedUnder(path, entries[1..], want);
      forall v | v in Offered(path, entries[1..], want)
        ensures exists i :: 0 <= i < |entries| && Under(path, entries[i].name, v)
      {
        var i :| 0 <= i < |entries[1..]| && Under(path, entries[1..][i].name, v);
        assert Under(path, entries[i + 1].name, v);
      }
      assert entries[0].name == entries[0].name;
    }
  }

  lemma {:induction false} OfferedByUnder(path: Path, name: string, n: Node, want: Node -> bool)
    ensures forall v :: v in OfferedBy(path + [name], n, want) ==> Under(path, name, v)
    decreases n
  {
    if n.Folder? && n.readable {
      OfferedUnder(path + [name], n.entries, want);
    }
  }

  ghost predicate DistinctPaths(s: seq<Visit>) {
    forall i, j :: 0 <= i < j < |s| ==> s[i].path != s[j].path
  }

  lemma {:induction false} OfferedDistinct(path: Path, entries: seq<Entry>, want: Node -> bool)
    requires WellNamed(entries)
    ensures DistinctPaths(Offered(path, entries, want))
    decreases entries
  {
    if entries != [] {
      var name, n := entries[0].name, entries[0].node;
      var first, rest := OfferedBy(path + [name], n, want), Offered(path, entries[1..], want);
      OfferedByDistinct(path + [name], n, want);
      OfferedDistinct(path, entries[1..], want);
      OfferedByUnder(path, name, n, want);
      OfferedUnder(path, entries[1..], want);
      forall i, j | 0 <= i < |first| && 0 <= j < |rest| ensures first[i].path != rest[j].path {
        assert first[i] in first && rest[j] in rest;
        var k :| 0 <= k < |entries[1..]| && Under(path, entries[1..][k].name, rest[j]);
        assert entries[k + 1].name != name;
      }
    }
  }

  lemma {:induction false} OfferedByDistinct(p: Path, n: Node, want: Node -> bool)
    requires n.Folder? ==> WellNamed(n.entries)
    ensures DistinctPaths(OfferedBy(p, n, want))
    decreases n
  {
    if n.Folder? && n.readable {
      OfferedDistinct(p, n.entries, want);
      OfferedUnder(p, n.entries, want);
      var below := Offered(p, n.entries, want);
      forall j | 0 <= j < |below| ensures below[j].path != p {
        assert below[j] in below;
      }
    }
  }

  // ------------------------------------------------- exactly the reachable nodes

  lemma {:induction false} OfferedIsReachable(
      path: Path, entries: seq<Entry>, want: Node -> bool, rel: Path, node: Node)
    ensures Visit(path + rel, node) in Offered(path, entries, want)
            <==> Reaches(entries, rel, node) && (node.Folder? || want(node))
    decreases entries
  {
    if rel == [] {
      OfferedUnder(path, entries, want);
    } else if entries != [] {
      var e := entries[0];
      assert path + rel == (path + [rel[0]]) + rel[1..];
      OfferedByIsReachable(path, e, want, rel, node);
      OfferedIsReachable(path, entries[1..], want, rel, node);
      if Reaches(entries, rel, node) {
        var i :| 0 <= i < |entries| && Leads(entries[i], rel, node);
        if i > 0 { assert Leads(entries[1..][i - 1], rel, node); }
      }
      if Reaches(entries[1..], rel, node) {
        var i :| 0 <= i < |entries[1..]| && Leads(entries[1..][i], rel, node);
        assert Leads(entries[i + 1], rel, node);
      }
      if Leads(e, rel, node) { assert Leads(entries[0], rel, node); }
    }
  }

  lemma {:induction false} OfferedByIsReachable(path: Path, e: Entry, want: Node -> bool, rel: Path, node: Node)
    requires rel != []
    ensures Visit(path + rel, node) in OfferedBy(path + [e.name], e.node, want)
            <==> Leads(e, rel, node) && (node.Folder? || want(node))
    decreases e
  {
    var p := path + [e.name];
    OfferedByUnder(path, e.name, e.node, want);
    if rel[0] == e.name {
      assert path + rel == p + rel[1..];
      if e.node.Folder? && e.node.readable {
        OfferedIsReachable(p, e.node.entries, want, rel[1..], node);
      }
      assert |rel| == 1 <==> p + rel[1..] == p;
    } else {
      assert (path + rel)[|path|] == rel[0];
    }
  }

  // -------------------------------------------------------------- level order

  ghost predicate ByDepth(s: seq<Visit>, low: nat) {
    && (forall i :: 0 <= i < |s| ==> low <= |s[i].path|)
    && (forall i, j :: 0 <= i < j < |s| ==> |s[i].path| <= |s[j].path|)
  }

  // The work list holds the rest of one level and the beginning of the next.
  ghost predicate TwoLevels(col: seq<Work>, low: nat) {
    && (forall i :: 0 <= i < |col| ==> low <= |col[i].path| <= low + 1)
    && (forall i, j :: 0 <= i < j < |col| ==> |col[i].path| <= |col[j].path|)
  }

  ghost predicate AtDepth(scan: seq<Visit>, found: seq<Work>, depth: nat) {
    && (forall i :: 0 <= i < |scan| ==> |scan[i].path| == depth)
    && (forall i :: 0 <= i < |found| ==> |found[i].path| == depth)
  }

  lemma {:induction false} ScanDepth<S(!new)>(cb: Callbacks<S>, s: S, path: Path, entries: seq<Entry>)
    ensures AtDepth(ScanOf(cb, s, path, entries).calls, ScanOf(cb, s, path, entries).found, |path| + 1)
    decreases |entries|
  {
    if entries != [] {
      var p, n := path + [entries[0].name], entries[0].node;
      var (s1, v1) := cb.filter(s, p, n);
      var (s2, v2) := cb.filter(s1, p, n);
      if v1 == FilterIn {
        ScanDepth(cb, cb.process(s1, p, n), path, entries[1..]);
      } else if v2 != FrameStop {
        ScanDepth(cb, s2, path, entries[1..]);
      }
    }
  }

  lemma SearchDepth<S(!new)>(cb: Callbacks<S>, s: S, w: Work)
    ensures AtDepth(SearchOf(cb, s, w).calls, SearchOf(cb, s, w).found, |w.path| + 1)
  {
    if w.folder.Folder? && w.folder.readable {
      ScanDepth(cb, s, w.path, w.folder.entries);
    }
  }

  lemma NextLevels(col: seq<Work>, calls: seq<Visit>, found: seq<Work>)
    requires col != [] && TwoLevels(col, |col[0].path|) && AtDepth(calls, found, |col[0].path| + 1)
    ensures var next := col[1..] + found;
      next != [] ==> TwoLevels(next, |next[0].path|) && |col[0].path| <= |next[0].path|
  {
  }

  lemma DepthAppend(calls: seq<Visit>, rest: seq<Visit>, depth: nat, low: nat)
    requires depth <= low && ByDepth(rest, low) && forall i :: 0 <= i < |calls| ==> |calls[i].path| == depth
    ensures ByDepth(calls + rest, depth)
  {
  }

  lemma {:induction false} WalkByDepth<S(!new)>(cb: Callbacks<S>, s: S, col: seq<Work>)
    requires col != [] && TwoLevels(col, |col[0].path|)
    ensures ByDepth(WalkOf(cb, s, col).calls, |col[0].path| + 1)
    decreases QueueSize(col)
  {
    var scan := SearchOf(cb, s, col[0]);
    SearchDepth(cb, s, col[0]);
    QueueSizeAppend(col[1..], scan.found);
    var next := col[1..] + scan.found;
    NextLevels(col, scan.calls, scan.found);
    if !scan.stopped && next != [] {
      WalkByDepth(cb, scan.state, next);
      DepthAppend(scan.calls, WalkOf(cb, scan.state, next).calls, |col[0].path| + 1, |next[0].path| + 1);
    }
  }

  // A folder is processed before anything below it, whatever the callbacks
  // answer and even if the walk is stopped.
  lemma FolderBeforeContents<S(!new)>(cb: Callbacks<S>, s: S, root: Node, i: nat, j: nat)
    requires i < |WalkRoot(cb, s, root).calls| && j < |WalkRoot(cb, s, root).calls|
    requires WalkRoot(cb, s, root).calls[i].path < WalkRoot(cb, s, root).calls[j].path
    ensures i < j
  {
    WalkByDepth(cb, s, [Work([], root)]);
  }

  // A walk that ends without a stop processes exactly the reachable folders and
  // the reachable wanted files, each once.
  lemma WalkIsExact<S(!new)>(cb: Callbacks<S>, want: Node -> bool, s: S, root: Node)
    requires Honest(cb, want) && Sticky(cb) && !WalkRoot(cb, s, root).stopped
    requires root.Folder? && root.readable && WellNamed(root.entries)
    ensures var calls := WalkRoot(cb, s, root).calls;
      && multiset(calls) == multiset(OfferedByRoot(root, want))
      && DistinctPaths(calls)
      && forall rel: Path, node: Node ::
           Visit(rel, node) in calls <==> Reaches(root.entries, rel, node) && (node.Folder? || want(node))
  {
    var calls, all := WalkRoot(cb, s, root).calls, OfferedByRoot(root, want);
    WalkOffers(cb, want, s, [Work([], root)]);
    assert BelowAll([Work([], root)], want) == all;
    OfferedDistinct([], root.entries, want);
    DistinctCarriesOver(all, calls);
    forall rel: Path, node: Node
      ensures Visit(rel, node) in calls <==> Reaches(root.entries, rel, node) && (node.Folder? || want(node))
    {
      OfferedIsReachable([], root.entries, want, rel, node);
      assert [] + rel == rel;
      assert Visit(rel, node) in calls <==> Visit(rel, node) in multiset(calls);
      assert Visit(rel, node) in all <==> Visit(rel, node) in multiset(all);
    }
  }

  lemma {:induction false} CountOnce(s: seq<Visit>, v: Visit, i: nat, j: nat)
    requires i < j < |s| && s[i] == v && s[j] == v
    ensures multiset(s)[v] >= 2
  {
    assert s == s[..j] + [s[j]] + s[j + 1..];
    assert v in s[..j] by { assert s[..j][i] == v; }
    assert multiset(s) == multiset(s[..j]) + multiset{v} + multiset(s[j + 1..]);
  }

  lemma {:induction false} AtMostOnce(s: seq<Visit>, v: Visit)
    requires DistinctPaths(s)
    ensures multiset(s)[v] <= 1
    decreases |s|
  {
    if s != [] {
      assert s == [s[0]] + s[1..];
      assert s[0] !in s[1..];
      AtMostOnce(s[1..], v);
    }
  }

  lemma PathsTellVisits(s: seq<Visit>, u: Visit, v: Visit)
    requires DistinctPaths(s) && u in s && v in s && u != v
    ensures u.path != v.path
  {
  }

  lemma DistinctCarriesOver(s: seq<Visit>, t: seq<Visit>)
    requires multiset(s) == multiset(t) && DistinctPaths(s)
    ensures DistinctPaths(t)
  {
    forall i, j | 0 <= i < j < |t| ensures t[i].path != t[j].path {
      assert t[i] in multiset(t) && t[j] in multiset(t);
      assert t[i] in s && t[j] in s;
      AtMostOnce(s, t[i]);
      if t[i] == t[j] {
        CountOnce(t, t[i], i, j);
      } else {
        PathsTellVisits(s, t[i], t[j]);
      }
    }
  }
}
