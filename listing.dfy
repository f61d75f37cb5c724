/**
 * The tree listing and the views computed from it alone: the note filter
 * `getMdFiles` (app.js:53-57) and the counters of `getStats` (app.js:115-125).
 */
module Listing {
  import opened Text

  /** One entry of the recursive `git/trees/main` listing. */
  datatype TreeEntry = TreeEntry(path: string, kind: string, size: nat)

  /** Top-level names whose files are never notes (matched as plain prefixes). */
  const SkipPrefixes: seq<string> := [".obsidian", "exports", "scripts", ".git", "__pycache__", ".github", "node_modules"]

  /** `a` is `b` with some elements left out, order kept. */
  predicate Subsequence<T(==)>(a: seq<T>, b: seq<T>)
  {
    if a == [] then true
    else if b == [] then false
    else if a[0] == b[0] then Subsequence(a[1..], b[1..])
    else Subsequence(a, b[1..])
  }

  lemma {:induction false} SubsequenceTail<T>(a: seq<T>, b: seq<T>)
    requires a != [] && Subsequence(a, b)
    ensures Subsequence(a[1..], b)
    decreases |b|, 0
  {
    if b != [] && a[0] != b[0] {
      SubsequenceTail(a, b[1..]);
      SubsequenceSkip(a[1..], b[1..], b[0]);
    } else if b != [] {
      SubsequenceSkip(a[1..], b[1..], b[0]);
    }
  }

  lemma {:induction false} SubsequenceSkip<T>(a: seq<T>, b: seq<T>, x: T)
    requires Subsequence(a, b)
    ensures Subsequence(a, [x] + b)
    decreases |b|, 1
  {
    var xb := [x] + b;
    assert xb[1..] == b;
    if a != [] && a[0] == x {
      SubsequenceTail(a, b);
    }
  }

  /** `tree.filter(f => f.type === 'blob')` */
  function Blobs(tree: seq<TreeEntry>): (r: seq<TreeEntry>)
    ensures Subsequence(r, tree)
    ensures forall i :: 0 <= i < |r| ==> r[i].kind == "blob"
    ensures forall e :: e in tree && e.kind == "blob" ==> e in r
  {
    if tree == [] then []
    else if tree[0].kind == "blob" then
      var rest := Blobs(tree[1..]);
      assert ([tree[0]] + rest)[1..] == rest;
      [tree[0]] + rest
    else
      SubsequenceSkip(Blobs(tree[1..]), tree[1..], tree[0]);
      assert [tree[0]] + tree[1..] == tree;
      Blobs(tree[1..])
  }

  predicate HasSkippedPrefix(path: string)
  {
    exists k :: 0 <= k < |SkipPrefixes| && StartsWith(path, SkipPrefixes[k])
  }

  /** A blob the dashboard treats as a note. */
  predicate IsNote(e: TreeEntry)
  {
    EndsWith(e.path, ".md") && !HasSkippedPrefix(e.path)
  }

  /**
   * `getMdFiles`: the blobs ending in `.md` whose path starts with none of the
   * skipped prefixes, in listing order.
   */
  function MdFiles(blobs: seq<TreeEntry>): (r: seq<TreeEntry>)
    ensures Subsequence(r, blobs)
    ensures forall i :: 0 <= i < |r| ==> IsNote(r[i])
    ensures forall e :: e in blobs && IsNote(e) ==> e in r
  {
    if blobs == [] then []
    else if IsNote(blobs[0]) then
      var rest := MdFiles(blobs[1..]);
      assert ([blobs[0]] + rest)[1..] == rest;
      [blobs[0]] + rest
    else
      SubsequenceSkip(MdFiles(blobs[1..]), blobs[1..], blobs[0]);
      assert [blobs[0]] + blobs[1..] == blobs;
      MdFiles(blobs[1..])
  }

  /** The number of files whose path starts with `prefix`. */
  function CountPrefix(files: seq<TreeEntry>, prefix: string): (n: nat)
    ensures n <= |files|
  {
    if files == [] then 0
    else (if StartsWith(files[0].path, prefix) then 1 else 0) + CountPrefix(files[1..], prefix)
  }

  /** `files.reduce((a, f) => a + (f.size || 0), 0)` */
  function TotalSize(files: seq<TreeEntry>): nat
  {
    if files == [] then 0 else files[0].size + TotalSize(files[1..])
  }

  datatype Stats = Stats(total: nat, projects: nat, dailies: nat, knowledge: nat, weekly: nat, totalSize: nat)

  /** `getStats` over the note list. */
  function GetStats(files: seq<TreeEntry>): (s: Stats)
    ensures s.total == |files| && s.totalSize == TotalSize(files)
    ensures s.projects + s.dailies + s.knowledge + s.weekly <= s.total
  {
    CategoriesDisjoint(files);
    Stats(|files|, CountPrefix(files, "Projects/"), CountPrefix(files, "Daily/"),
          CountPrefix(files, "Knowledge/"), CountPrefix(files, "Weekly/"), TotalSize(files))
  }

  /** No path starts with two of the category folders, so their counts add up to at most the total. */
  lemma {:induction false} CategoriesDisjoint(files: seq<TreeEntry>)
    ensures CountPrefix(files, "Projects/") + CountPrefix(files, "Daily/")
      + CountPrefix(files, "Knowledge/") + CountPrefix(files, "Weekly/") <= |files|
  {
    if files != [] {
      CategoriesDisjoint(files[1..]);
      var p := files[0].path;
      if StartsWith(p, "Projects/") {
        assert p[0] == 'P';
      } else if StartsWith(p, "Daily/") {
        assert p[0] == 'D';
      } else if StartsWith(p, "Knowledge/") {
        assert p[0] == 'K';
      }
    }
  }

  /** Path segment `k` of `path.split('/')`; the empty string stands for `undefined`. */
  function Segment(path: string, k: nat): string
  {
    var parts := Split(path, '/');
    if k < |parts| then parts[k] else ""
  }

  /** The segments of a path joined with `/` are recovered by `Segment`. */
  lemma SegmentsOfJoin(parts: seq<string>, k: nat)
    requires |parts| >= 1 && k < |parts|
    requires forall i :: 0 <= i < |parts| ==> '/' !in parts[i]
    ensures Segment(Join(parts, '/'), k) == parts[k]
  {
    SplitJoin(parts, '/');
  }
}
