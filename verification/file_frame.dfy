// backup/file_frame.cpp: a breadth-first walk over a folder tree with a work
// list, driven by callbacks that share one state (pdata).
module FileFrames {
  import opened BackupTables
  import opened Prelude

  // A snapshot of the source tree. A folder that cannot be opened has entries
  // that nobody sees; "." and ".." are not listed.
  datatype Node =
    | File(mtime: int, bytes: string)
    | Folder(readable: bool, entries: seq<Entry>)
  datatype Entry = Entry(name: string, node: Node)

  datatype Verdict = FilterIn | FilterOut | FrameStop

  // `process` stands for pprocess and the pstatistic call that follows it.
  datatype Callbacks<!S> = Callbacks(
    filter: (S, Path, Node) -> (S, Verdict),
    process: (S, Path, Node) -> S)

  datatype Work = Work(path: Path, folder: Node)      // an element of col
  datatype Visit = Visit(path: Path, node: Node)      // one call of process

  // ------------------------------------------------------------ specification

  function Size(n: Node): nat {
    match n
    case File(_, _) => 1
    case Folder(_, entries) => 1 + SizeAll(entries)
  }

  function SizeAll(entries: seq<Entry>): nat {
    if entries == [] then 0 else Size(entries[0].node) + SizeAll(entries[1..])
  }

  function QueueSize(col: seq<Work>): nat {
    if col == [] then 0 else Size(col[0].folder) + QueueSize(col[1..])
  }

  lemma {:induction false} QueueSizeAppend(a: seq<Work>, b: seq<Work>)
    ensures QueueSize(a + b) == QueueSize(a) + QueueSize(b)
  {
    if a == [] {
      assert a + b == b;
    } else {
      assert (a + b)[1..] == a[1..] + b;
      QueueSizeAppend(a[1..], b);
    }
  }

  datatype Scan<S> = Scan(state: S, found: seq<Work>, calls: seq<Visit>, stopped: bool)

  function AsWork(path: Path, node: Node): seq<Work> {
    if node.Folder? then [Work(path, node)] else []
  }

  // One folder: an entry that is not filtered in is filtered a second time, to
  // tell a stop from a refusal.
  function ScanOf<S>(cb: Callbacks<S>, s: S, path: Path, entries: seq<Entry>): (r: Scan<S>)
    ensures QueueSize(r.found) <= SizeAll(entries)
  {
    if entries == [] then Scan(s, [], [], false)
    else
      var p, n := path + [entries[0].name], entries[0].node;
      var (s1, v1) := cb.filter(s, p, n);
      if v1 == FilterIn then
        var rest := ScanOf(cb, cb.process(s1, p, n), path, entries[1..]);
        QueueSizeAppend(AsWork(p, n), rest.found);
        Scan(rest.state, AsWork(p, n) + rest.found, [Visit(p, n)] + rest.calls, rest.stopped)
      else
        var (s2, v2) := cb.filter(s1, p, n);
        if v2 == FrameStop then Scan(s2, [], [], true)
        else ScanOf(cb, s2, path, entries[1..])
  }

  function SearchOf<S>(cb: Callbacks<S>, s: S, w: Work): (r: Scan<S>)
    ensures QueueSize(r.found) < Size(w.folder)
  {
    if w.folder.Folder? && w.folder.readable then ScanOf(cb, s, w.path, w.folder.entries)
    else Scan(s, [], [], false)
  }

  lemma DropFront(col: seq<Work>, found: seq<Work>)
    requires col != []
    ensures (col + found)[1..] == col[1..] + found
  {
  }

  datatype Walk<S> = Walk(state: S, calls: seq<Visit>, stopped: bool)

  function WalkOf<S>(cb: Callbacks<S>, s: S, col: seq<Work>): Walk<S>
    decreases QueueSize(col)
  {
    if col == [] then Walk(s, [], false)
    else
      var scan := SearchOf(cb, s, col[0]);
      if scan.stopped then Walk(scan.state, scan.calls, true)
      else
        QueueSizeAppend(col[1..], scan.found);
        var rest := WalkOf(cb, scan.state, col[1..] + scan.found);
        Walk(rest.state, scan.calls + rest.calls, rest.stopped)
  }

  function WalkRoot<S>(cb: Callbacks<S>, s: S, root: Node): Walk<S> {
    WalkOf(cb, s, [Work([], root)])
  }

  // ------------------------------------------------------------------ the code

  class FileFrame<S> {
    const cb: Callbacks<S>
    const root: Node  // the one directory that the worker adds
    var pdata: S
    var col: seq<Work>
    var total: nat
    ghost var calls: seq<Visit>

    constructor (cb: Callbacks<S>, root: Node, pdata: S)
      ensures this.cb == cb && this.root == root && this.pdata == pdata
      ensures col == [] && total == 0 && calls == []
    {
      this.cb, this.root, this.pdata := cb, root, pdata;
      col, total, calls := [], 0, [];
    }

    method SearchByFolder(w: Work) returns (stopped: bool)
      modifies this
      ensures var scan := SearchOf(cb, old(pdata), w);
        && pdata == scan.state && stopped == scan.stopped
        && col == old(col) + scan.found
        && calls == old(calls) + scan.calls && total == old(total) + |scan.calls|
    {
      if !w.folder.Folder? || !w.folder.readable {
        return false;  // opendir failed: only a warning
      }
      var entries := w.folder.entries;
      ghost var scan := ScanOf(cb, pdata, w.path, entries);
      var i := 0;
      while i < |entries|
        invariant 0 <= i <= |entries|
        invariant var rest := ScanOf(cb, pdata, w.path, entries[i..]);
          && rest.state == scan.state && rest.stopped == scan.stopped
          && col + rest.found == old(col) + scan.found
          && calls + rest.calls == old(calls) + scan.calls
          && total + |rest.calls| == old(total) + |scan.calls|
      {
        var relative, node := w.path + [entries[i].name], entries[i].node;
        ghost var now := ScanOf(cb, pdata, w.path, entries[i..]);
        ghost var rest := ScanOf(cb, pdata, w.path, entries[i + 1..]);
        assert entries[i..][1..] == entries[i + 1..];
        var first := cb.filter(pdata, relative, node);
        pdata := first.0;
        if first.1 == FilterIn {
          pdata := cb.process(pdata, relative, node);
          rest := ScanOf(cb, pdata, w.path, entries[i + 1..]);
          Regroup(col, AsWork(relative, node), rest.found);
          Regroup(calls, [Visit(relative, node)], rest.calls);
          if node.Folder? {
            col := col + [Work(relative, node)];
          } else {
            assert col + AsWork(relative, node) == col;
          }
          calls := calls + [Visit(relative, node)];
          total := total + 1;
        } else {
          var second := cb.filter(pdata, relative, node);
          pdata := second.0;
          if second.1 == FrameStop {
            assert now.found == [] && now.calls == [];
            return true;
          }
        }
        i := i + 1;
      }
      return false;
    }

    method Start() returns (stopped: bool)
      requires col == []
      modifies this
      ensures !stopped ==> col == []
      ensures var walk := WalkRoot(cb, old(pdata), root);
        && pdata == walk.state && stopped == walk.stopped
        && calls == old(calls) + walk.calls && total == old(total) + |walk.calls|
    {
      ghost var walk := WalkRoot(cb, pdata, root);
      col := [Work([], root)];
      while |col| != 0
        invariant var rest := WalkOf(cb, pdata, col);
          && rest.state == walk.state && rest.stopped == walk.stopped
          && calls + rest.calls == old(calls) + walk.calls
          && total + |rest.calls| == old(total) + |walk.calls|
        decreases QueueSize(col)
      {
        ghost var col0, calls0 := col, calls;
        ghost var scan := SearchOf(cb, pdata, col[0]);
        QueueSizeAppend(col[1..], scan.found);
        stopped := SearchByFolder(col[0]);
        if stopped {
          return true;
        }
        DropFront(col0, scan.found);
        Regroup(calls0, scan.calls, WalkOf(cb, pdata, col0[1..] + scan.found).calls);
        col := col[1..];
      }
      return false;
    }

    method Finish()
      modifies this`total
      ensures total == 0
    {
      total := 0;
    }
  }
}
