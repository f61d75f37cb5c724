/**
 * `getProjects` (app.js:150-160): the notes under `Projects/` grouped by
 * their second path segment, each group with its paths in listing order and
 * its total size, the groups ordered by descending number of files. Groups
 * with the same number of files keep the order in which their names first
 * appear (`Object.values` order, and `Array.prototype.sort` is stable).
 */
module Projects {
  import opened Text
  import opened Listing
  import opened Grouping

  datatype Project = Project(name: string, files: seq<string>, size: nat)

  /** `files.filter(f => f.path.startsWith('Projects/'))` */
  function ProjectFiles(files: seq<TreeEntry>): (r: seq<TreeEntry>)
    ensures Subsequence(r, files)
    ensures forall i :: 0 <= i < |r| ==> StartsWith(r[i].path, "Projects/")
    ensures forall e :: e in files && StartsWith(e.path, "Projects/") ==> e in r
  {
    if files == [] then []
    else if StartsWith(files[0].path, "Projects/") then
      var rest := ProjectFiles(files[1..]);
      assert ([files[0]] + rest)[1..] == rest;
      [files[0]] + rest
    else
      SubsequenceSkip(ProjectFiles(files[1..]), files[1..], files[0]);
      assert [files[0]] + files[1..] == files;
      ProjectFiles(files[1..])
  }

  /** `f.path.split('/')[1]` */
  function ProjectName(e: TreeEntry): string
  {
    Segment(e.path, 1)
  }

  /** The project name of every file, in order. */
  function Names(fs: seq<TreeEntry>): (r: seq<string>)
    ensures |r| == |fs|
    ensures forall i :: 0 <= i < |fs| ==> r[i] == ProjectName(fs[i])
  {
    seq(|fs|, i requires 0 <= i < |fs| => ProjectName(fs[i]))
  }

  /** The paths of the files of project `n`, in listing order. */
  function PathsOf(fs: seq<TreeEntry>, n: string): seq<string>
  {
    if fs == [] then []
    else
      var last := fs[|fs| - 1];
      PathsOf(fs[..|fs| - 1], n) + (if ProjectName(last) == n then [last.path] else [])
  }

  /** The summed size of the files of project `n`. */
  function SizeOf(fs: seq<TreeEntry>, n: string): nat
  {
    if fs == [] then 0
    else
      var last := fs[|fs| - 1];
      SizeOf(fs[..|fs| - 1], n) + (if ProjectName(last) == n then last.size else 0)
  }

  function GroupOf(fs: seq<TreeEntry>, n: string): Project
  {
    Project(n, PathsOf(fs, n), SizeOf(fs, n))
  }

  /** The groups of the given names. */
  function GroupsFor(fs: seq<TreeEntry>, names: seq<string>): (r: seq<Project>)
    ensures |r| == |names|
    ensures forall i :: 0 <= i < |names| ==> r[i] == GroupOf(fs, names[i])
  {
    seq(|names|, i requires 0 <= i < |names| => GroupOf(fs, names[i]))
  }

  /** One group per project name, in order of first appearance. */
  function Groups(fs: seq<TreeEntry>): seq<Project>
  {
    GroupsFor(fs, Distinct(Names(fs)))
  }

  function FileCount(p: Project): nat
  {
    |p.files|
  }

  /** Place `x` before the first project that has no more files than it. */
  function Insert(x: Project, s: seq<Project>): (r: seq<Project>)
    ensures |r| == |s| + 1
  {
    if s == [] || FileCount(s[0]) <= FileCount(x) then [x] + s
    else [s[0]] + Insert(x, s[1..])
  }

  /** `.sort((a, b) => b.files.length - a.files.length)`, a stable sort. */
  function SortByFileCount(s: seq<Project>): (r: seq<Project>)
    ensures |r| == |s|
  {
    if s == [] then [] else Insert(s[0], SortByFileCount(s[1..]))
  }

  predicate SortedDescending(s: seq<Project>)
  {
    forall i, j :: 0 <= i < j < |s| ==> FileCount(s[i]) >= FileCount(s[j])
  }

  /** The projects with exactly `k` files, in order. */
  function WithCount(s: seq<Project>, k: nat): seq<Project>
  {
    if s == [] then []
    else (if FileCount(s[0]) == k then [s[0]] else []) + WithCount(s[1..], k)
  }

  /** The number of files over all projects. */
  function TotalFiles(s: seq<Project>): nat
  {
    if s == [] then 0 else FileCount(s[0]) + TotalFiles(s[1..])
  }

  /**
   * `getProjects()` over the note list: accumulate the groups in a dictionary
   * keyed by project name, then sort its values.
   */
  method GetProjects(files: seq<TreeEntry>) returns (r: seq<Project>)
    ensures r == SortByFileCount(Groups(ProjectFiles(files)))
  {
    var fs := ProjectFiles(files);
    var p: map<string, Project> := map[];
    var order: seq<string> := [];
    var i := 0;
    while i < |fs|
      invariant 0 <= i <= |fs|
      invariant Accumulated(fs[..i], p, order)
    {
      p, order := AddFile(fs, i, p, order);
      i := i + 1;
    }
    assert fs[..|fs|] == fs;
    var values := ValuesInOrder(p, order);
    ValuesAreGroups(p, order, fs);
    r := SortByFileCount(values);
  }

  /** One iteration of the `forEach` of `getProjects`: open the group of the file's project if needed, then add the file. */
  method AddFile(fs: seq<TreeEntry>, i: nat, p: map<string, Project>, order: seq<string>)
    returns (q: map<string, Project>, o1: seq<string>)
    requires i < |fs| && Accumulated(fs[..i], p, order)
    ensures Accumulated(fs[..i + 1], q, o1)
  {
    var f := fs[i];
    var name := Segment(f.path, 1);
    var group: Project;
    if name !in p {
      group, o1 := Project(name, [], 0), order + [name];
    } else {
      group, o1 := p[name], order;
    }
    q := p[name := Project(name, group.files + [f.path], group.size + f.size)];
    AccumulateStep(fs, i, p, order, group);
  }

  /** `Object.values(p)`: the values of the keys in `order`. */
  function ValuesInOrder(p: map<string, Project>, order: seq<string>): (r: seq<Project>)
    requires forall n :: n in order ==> n in p
    ensures |r| == |order|
    ensures forall k :: 0 <= k < |order| ==> r[k] == p[order[k]]
  {
    if order == [] then [] else [p[order[0]]] + ValuesInOrder(p, order[1..])
  }

  lemma ValuesAreGroups(p: map<string, Project>, order: seq<string>, fs: seq<TreeEntry>)
    requires forall n :: n in order ==> n in p && p[n] == GroupOf(fs, n)
    ensures ValuesInOrder(p, order) == GroupsFor(fs, order)
  {
  }

  /** The groups of `fs` are the values of `p`, whose keys are exactly those listed in `order`. */
  ghost predicate Accumulated(fs: seq<TreeEntry>, p: map<string, Project>, order: seq<string>)
  {
    && order == Distinct(Names(fs))
    && (forall n :: n in p <==> n in order)
    && (forall n :: n in p ==> p[n] == GroupOf(fs, n))
  }

  /**
   * One iteration of the `forEach` of `getProjects` keeps the dictionary
   * equal to the groups so far: the group of the file's project, `base`
   * (an empty one when the project is new), gets the file's path and size.
   */
  lemma AccumulateStep(fs: seq<TreeEntry>, i: nat, p: map<string, Project>, order: seq<string>, base: Project)
    requires i < |fs| && Accumulated(fs[..i], p, order)
    requires base == if ProjectName(fs[i]) in p then p[ProjectName(fs[i])] else Project(ProjectName(fs[i]), [], 0)
    ensures Accumulated(fs[..i + 1],
      p[ProjectName(fs[i]) := Project(ProjectName(fs[i]), base.files + [fs[i].path], base.size + fs[i].size)],
      if ProjectName(fs[i]) in p then order else order + [ProjectName(fs[i])])
  {
    var name := ProjectName(fs[i]);
    var o1 := if name in p then order else order + [name];
    assert o1 == Distinct(Names(fs[..i + 1])) by {
      GroupStep(fs, i);
    }
    GroupsStep(fs, i, p, order, base);
  }

  /** The dictionary after one iteration holds the groups of the files so far. */
  lemma GroupsStep(fs: seq<TreeEntry>, i: nat, p: map<string, Project>, order: seq<string>, base: Project)
    requires i < |fs| && Accumulated(fs[..i], p, order)
    requires base == if ProjectName(fs[i]) in p then p[ProjectName(fs[i])] else Project(ProjectName(fs[i]), [], 0)
    ensures var name := ProjectName(fs[i]);
      var q := p[name := Project(name, base.files + [fs[i].path], base.size + fs[i].size)];
      forall n :: n in q ==> q[n] == GroupOf(fs[..i + 1], n)
  {
    var name := ProjectName(fs[i]);
    var q := p[name := Project(name, base.files + [fs[i].path], base.size + fs[i].size)];
    forall n | n in q
      ensures q[n] == GroupOf(fs[..i + 1], n)
    {
      if n == name {
        assert GroupOf(fs[..i + 1], name)
            == Project(name, PathsOf(fs[..i], name) + [fs[i].path], SizeOf(fs[..i], name) + fs[i].size) by {
          GroupStep(fs, i);
        }
        if name !in p {
          assert name !in Names(fs[..i]);
          UnseenGroupEmpty(fs[..i], name);
        }
      } else {
        assert GroupOf(fs[..i + 1], n) == GroupOf(fs[..i], n) by {
          GroupStep(fs, i);
        }
        assert q[n] == p[n];
      }
    }
  }

  /** Adding file `i` extends the name list by its name and only its group by its path and size. */
  lemma GroupStep(fs: seq<TreeEntry>, i: nat)
    requires i < |fs|
    ensures Names(fs[..i + 1]) == Names(fs[..i]) + [ProjectName(fs[i])]
    ensures Distinct(Names(fs[..i + 1])) ==
      (if ProjectName(fs[i]) in Names(fs[..i]) then Distinct(Names(fs[..i]))
      else Distinct(Names(fs[..i])) + [ProjectName(fs[i])])
    ensures var n := ProjectName(fs[i]);
      GroupOf(fs[..i + 1], n) == Project(n, PathsOf(fs[..i], n) + [fs[i].path], SizeOf(fs[..i], n) + fs[i].size)
    ensures forall n :: n != ProjectName(fs[i]) ==> GroupOf(fs[..i + 1], n) == GroupOf(fs[..i], n)
  {
    assert fs[..i + 1][..i] == fs[..i];
    var ns := Names(fs[..i + 1]);
    assert ns[..|ns| - 1] == Names(fs[..i]);
  }

  lemma {:induction false} UnseenGroupEmpty(fs: seq<TreeEntry>, n: string)
    requires n !in Names(fs)
    ensures PathsOf(fs, n) == [] && SizeOf(fs, n) == 0
  {
    if fs != [] {
      var init := fs[..|fs| - 1];
      assert Names(init) == Names(fs)[..|fs| - 1];
      UnseenGroupEmpty(init, n);
    }
  }

  lemma {:induction false} InsertSorted(x: Project, s: seq<Project>)
    requires SortedDescending(s)
    ensures SortedDescending(Insert(x, s))
    ensures forall i :: 0 <= i < |Insert(x, s)| ==> Insert(x, s)[i] == x || Insert(x, s)[i] in s
  {
    if s != [] && FileCount(s[0]) > FileCount(x) {
      InsertSorted(x, s[1..]);
      var t := Insert(x, s[1..]);
      forall i | 0 <= i < |t| ensures FileCount(s[0]) >= FileCount(t[i]) {
        if t[i] != x {
          var j :| 0 <= j < |s[1..]| && s[1..][j] == t[i];
          assert s[j + 1] == t[i];
        }
      }
    }
  }

  lemma {:induction false} InsertPermutes(x: Project, s: seq<Project>)
    ensures multiset(Insert(x, s)) == multiset(s) + multiset{x}
  {
    if s != [] && FileCount(s[0]) > FileCount(x) {
      InsertPermutes(x, s[1..]);
      assert s == [s[0]] + s[1..];
    }
  }

  lemma {:induction false} InsertWithCount(x: Project, s: seq<Project>, k: nat)
    requires SortedDescending(s)
    ensures WithCount(Insert(x, s), k) == (if FileCount(x) == k then [x] else []) + WithCount(s, k)
  {
    if s != [] && FileCount(s[0]) > FileCount(x) {
      InsertWithCount(x, s[1..], k);
      var t := Insert(x, s[1..]);
      assert ([s[0]] + t)[1..] == t;
    }
  }

  lemma {:induction false} InsertTotal(x: Project, s: seq<Project>)
    ensures TotalFiles(Insert(x, s)) == FileCount(x) + TotalFiles(s)
  {
    if s != [] && FileCount(s[0]) > FileCount(x) {
      InsertTotal(x, s[1..]);
      assert ([s[0]] + Insert(x, s[1..]))[1..] == Insert(x, s[1..]);
    } else {
      assert ([x] + s)[1..] == s;
    }
  }

  /**
   * The sort orders by descending file count, is a permutation, and is
   * stable: for every file count the projects with that count appear in the
   * order they had before.
   */
  lemma {:induction false} SortByFileCountCorrect(s: seq<Project>)
    ensures SortedDescending(SortByFileCount(s))
    ensures multiset(SortByFileCount(s)) == multiset(s)
    ensures forall k: nat :: WithCount(SortByFileCount(s), k) == WithCount(s, k)
    ensures TotalFiles(SortByFileCount(s)) == TotalFiles(s)
  {
    if s != [] {
      SortByFileCountCorrect(s[1..]);
      var t := SortByFileCount(s[1..]);
      InsertSorted(s[0], t);
      InsertPermutes(s[0], t);
      InsertTotal(s[0], t);
      forall k: nat ensures WithCount(SortByFileCount(s), k) == WithCount(s, k) {
        InsertWithCount(s[0], t, k);
      }
      assert s == [s[0]] + s[1..];
    }
  }

  lemma {:induction false} PathsCountOccurrences(fs: seq<TreeEntry>, n: string)
    ensures |PathsOf(fs, n)| == Occurrences(Names(fs), n)
  {
    if fs != [] {
      var init := fs[..|fs| - 1];
      assert Names(init) == Names(fs)[..|fs| - 1];
      PathsCountOccurrences(init, n);
    }
  }

  lemma {:induction false} TotalFilesAppend(a: seq<Project>, b: seq<Project>)
    ensures TotalFiles(a + b) == TotalFiles(a) + TotalFiles(b)
  {
    if a != [] {
      assert (a + b)[1..] == a[1..] + b;
      TotalFilesAppend(a[1..], b);
    } else {
      assert a + b == b;
    }
  }

  lemma {:induction false} TotalFilesOfGroups(fs: seq<TreeEntry>, names: seq<string>)
    ensures TotalFiles(GroupsFor(fs, names)) == SumOccurrences(Names(fs), names)
  {
    if names != [] {
      var init := names[..|names| - 1];
      var last := names[|names| - 1];
      TotalFilesOfGroups(fs, init);
      assert GroupsFor(fs, names) == GroupsFor(fs, init) + [GroupOf(fs, last)];
      TotalFilesAppend(GroupsFor(fs, init), [GroupOf(fs, last)]);
      PathsCountOccurrences(fs, last);
    }
  }

  /**
   * Every note under `Projects/` lands in exactly one project: the file
   * counts of the result add up to the number of such notes, and the result
   * is sorted by descending file count.
   */
  lemma ProjectsAccountForEveryFile(files: seq<TreeEntry>)
    ensures var r := SortByFileCount(Groups(ProjectFiles(files)));
      TotalFiles(r) == |ProjectFiles(files)| && SortedDescending(r)
  {
    var fs := ProjectFiles(files);
    SortByFileCountCorrect(Groups(fs));
    TotalFilesOfGroups(fs, Distinct(Names(fs)));
    OccurrencesSum(Names(fs));
  }

  /** Each project holds exactly the notes whose second path segment is its name, in listing order. */
  lemma {:induction false} PathsOfMembers(fs: seq<TreeEntry>, n: string)
    ensures forall p :: p in PathsOf(fs, n) <==> exists i :: 0 <= i < |fs| && fs[i].path == p && ProjectName(fs[i]) == n
  {
    if fs != [] {
      var init := fs[..|fs| - 1];
      PathsOfMembers(init, n);
      forall p ensures p in PathsOf(fs, n) <==> exists i :: 0 <= i < |fs| && fs[i].path == p && ProjectName(fs[i]) == n {
        if (exists i :: 0 <= i < |fs| && fs[i].path == p && ProjectName(fs[i]) == n) {
          var i :| 0 <= i < |fs| && fs[i].path == p && ProjectName(fs[i]) == n;
          if i < |fs| - 1 {
            assert init[i] == fs[i];
          }
        }
        if p in PathsOf(init, n) {
          var i :| 0 <= i < |init| && init[i].path == p && ProjectName(init[i]) == n;
          assert fs[i] == init[i];
        }
      }
    }
  }
}
