/**
 * `healthCheck` (app.js:185-205): a score that starts at 100 and loses 10
 * without today's daily note, 5 without `Home.md`, one per note under 10
 * bytes and 3 per project folder without its top note, clamped to [0, 100];
 * the issues in the order they are found; and the number of notes per
 * top-level folder. The date of today (`YYYY-MM-DD`) is a parameter.
 */
module Health {
  import opened Text
  import opened Listing
  import opened Grouping
  import Projects

  datatype Issue =
    | NoDailyNote
    | NoHomeNote
    | EmptyFiles(count: nat)
    | MissingTopFile(project: string)
    | ManyNotes(count: nat)

  datatype HealthStats = HealthStats(total: nat, empty: nat, projects: nat)

  datatype Report = Report(score: int, issues: seq<Issue>, stats: HealthStats, folders: seq<(string, nat)>)

  /** `files.some(f => f.path === path)` */
  predicate HasPath(files: seq<TreeEntry>, path: string)
  {
    exists i :: 0 <= i < |files| && files[i].path == path
  }

  function DailyPath(today: string): string
  {
    "Daily/" + today + ".md"
  }

  /** `Projects/<p>/<p>.md`, the top note of project folder `p`. */
  function TopFile(p: string): string
  {
    "Projects/" + p + "/" + p + ".md"
  }

  /** `files.filter(f => f.size < 10)` */
  function SmallFiles(files: seq<TreeEntry>): (r: seq<TreeEntry>)
    ensures |r| <= |files|
    ensures forall i :: 0 <= i < |r| ==> r[i].size < 10 && r[i] in files
    ensures forall e :: e in files && e.size < 10 ==> e in r
  {
    if files == [] then []
    else (if files[0].size < 10 then [files[0]] else []) + SmallFiles(files[1..])
  }

  /** The distinct project folders, in order of first appearance. */
  function ProjectDirs(files: seq<TreeEntry>): seq<string>
  {
    Distinct(Projects.Names(Projects.ProjectFiles(files)))
  }

  /** One issue per listed folder that lacks its top note, in order. */
  function MissingTopIssues(files: seq<TreeEntry>, dirs: seq<string>): seq<Issue>
  {
    if dirs == [] then []
    else
      var p := dirs[|dirs| - 1];
      MissingTopIssues(files, dirs[..|dirs| - 1]) + (if HasPath(files, TopFile(p)) then [] else [MissingTopFile(p)])
  }

  /** The points taken off the starting score of 100. */
  function Deduction(files: seq<TreeEntry>, today: string): nat
  {
    (if HasPath(files, DailyPath(today)) then 0 else 10)
    + (if HasPath(files, "Home.md") then 0 else 5)
    + |SmallFiles(files)|
    + 3 * |MissingTopIssues(files, ProjectDirs(files))|
  }

  /** `Math.max(0, Math.min(100, x))` */
  function Clamp(x: int): (r: int)
    ensures 0 <= r <= 100
    ensures 0 <= x <= 100 ==> r == x
  {
    if x > 100 then 100 else if x < 0 then 0 else x
  }

  function DailyIssues(files: seq<TreeEntry>, today: string): seq<Issue>
  {
    if HasPath(files, DailyPath(today)) then [] else [NoDailyNote]
  }

  function HomeIssues(files: seq<TreeEntry>): seq<Issue>
  {
    if HasPath(files, "Home.md") then [] else [NoHomeNote]
  }

  function EmptyIssues(files: seq<TreeEntry>): seq<Issue>
  {
    if |SmallFiles(files)| > 0 then [EmptyFiles(|SmallFiles(files)|)] else []
  }

  function ManyIssues(files: seq<TreeEntry>): seq<Issue>
  {
    if |files| > 150 then [ManyNotes(|files|)] else []
  }

  /** The issues `healthCheck` lists, in the order it pushes them. */
  function ExpectedIssues(files: seq<TreeEntry>, today: string): seq<Issue>
  {
    DailyIssues(files, today) + HomeIssues(files) + EmptyIssues(files)
    + MissingTopIssues(files, ProjectDirs(files)) + ManyIssues(files)
  }

  /** The top-level folder of every note (`f.path.split('/')[0]`). */
  function FolderKeys(files: seq<TreeEntry>): (r: seq<string>)
    ensures |r| == |files|
    ensures forall i :: 0 <= i < |files| ==> r[i] == Segment(files[i].path, 0)
  {
    seq(|files|, i requires 0 <= i < |files| => Segment(files[i].path, 0))
  }

  /** Each listed key with its number of occurrences. */
  function CountsFor(keys: seq<string>, ks: seq<string>): (r: seq<(string, nat)>)
    ensures |r| == |ks|
    ensures forall i :: 0 <= i < |ks| ==> r[i] == (ks[i], Occurrences(keys, ks[i]))
  {
    seq(|ks|, i requires 0 <= i < |ks| => (ks[i], Occurrences(keys, ks[i])))
  }

  /** The `folders` object: notes per top-level folder, in order of first appearance. */
  function FolderCounts(files: seq<TreeEntry>): seq<(string, nat)>
  {
    CountsFor(FolderKeys(files), Distinct(FolderKeys(files)))
  }

  function SumCounts(counts: seq<(string, nat)>): nat
  {
    if counts == [] then 0 else SumCounts(counts[..|counts| - 1]) + counts[|counts| - 1].1
  }

  /** The `folders` entries of the keys in `order`. */
  function Entries(folders: map<string, nat>, order: seq<string>): (r: seq<(string, nat)>)
    requires forall d :: d in order ==> d in folders
    ensures |r| == |order|
    ensures forall i :: 0 <= i < |order| ==> r[i] == (order[i], folders[order[i]])
  {
    if order == [] then [] else [(order[0], folders[order[0]])] + Entries(folders, order[1..])
  }

  /** `healthCheck()` over the note list. */
  method HealthCheck(files: seq<TreeEntry>, today: string) returns (report: Report)
    ensures report.score == Clamp(100 - Deduction(files, today))
    ensures report.issues == ExpectedIssues(files, today)
    ensures report.stats == HealthStats(|files|, |SmallFiles(files)|, |ProjectDirs(files)|)
    ensures report.folders == FolderCounts(files)
  {
    var issues, score := NoteChecks(files, today);
    var projDirs := ProjectDirs(files);
    var missing, penalty := CheckTopFiles(files, projDirs);
    issues := issues + missing;
    score := score - penalty;
    if |files| > 150 {
      issues := issues + [ManyNotes(|files|)];
    } else {
      assert issues + [] == issues;
    }
    var folders := CountFolders(files);
    report := Report(Clamp(score), issues, HealthStats(|files|, |SmallFiles(files)|, |projDirs|), folders);
  }

  /** The first three checks of `healthCheck`: today's daily note, `Home.md` and the near-empty notes. */
  method NoteChecks(files: seq<TreeEntry>, today: string) returns (issues: seq<Issue>, score: int)
    ensures issues == DailyIssues(files, today) + HomeIssues(files) + EmptyIssues(files)
    ensures score == 100 - (if HasPath(files, DailyPath(today)) then 0 else 10)
      - (if HasPath(files, "Home.md") then 0 else 5) - |SmallFiles(files)|
  {
    issues, score := [], 100;
    if !HasPath(files, DailyPath(today)) {
      issues := issues + [NoDailyNote];
      score := score - 10;
    }
    assert issues == DailyIssues(files, today);
    if !HasPath(files, "Home.md") {
      issues := issues + [NoHomeNote];
      score := score - 5;
    }
    assert issues == DailyIssues(files, today) + HomeIssues(files);
    var emptyCheck := SmallFiles(files);
    if |emptyCheck| > 0 {
      issues := issues + [EmptyFiles(|emptyCheck|)];
      score := score - |emptyCheck|;
    }
  }

  /** The loop of `healthCheck` over the project folders: the issues it pushes and the points it takes off. */
  method CheckTopFiles(files: seq<TreeEntry>, dirs: seq<string>) returns (missing: seq<Issue>, penalty: nat)
    ensures missing == MissingTopIssues(files, dirs)
    ensures penalty == 3 * |missing|
  {
    missing, penalty := [], 0;
    var k := 0;
    while k < |dirs|
      invariant 0 <= k <= |dirs|
      invariant missing == MissingTopIssues(files, dirs[..k])
      invariant penalty == 3 * |missing|
    {
      var p := dirs[k];
      MissingTopStep(files, dirs, k);
      if !HasPath(files, TopFile(p)) {
        missing := missing + [MissingTopFile(p)];
        penalty := penalty + 3;
      } else {
        assert missing + [] == missing;
      }
      k := k + 1;
    }
    assert dirs[..|dirs|] == dirs;
  }

  /** `files.forEach(f => { const d = f.path.split('/')[0]; folders[d] = (folders[d] || 0) + 1; })` */
  method CountFolders(files: seq<TreeEntry>) returns (r: seq<(string, nat)>)
    ensures r == FolderCounts(files)
  {
    var keys := FolderKeys(files);
    var folders: map<string, nat> := map[];
    var order: seq<string> := [];
    var j := 0;
    assert keys[..0] == [];
    while j < |files|
      invariant 0 <= j <= |files|
      invariant Counted(keys[..j], folders, order)
    {
      var d := keys[j];
      var c := if d in folders then folders[d] else 0;
      CountStep(keys, j, folders, order, c);
      // a key seen for the first time is appended to the object's key order
      order := if d in folders then order else order + [d];
      folders := folders[d := c + 1];
      j := j + 1;
    }
    assert keys[..|files|] == keys;
    r := Entries(folders, order);
    EntriesOfCounted(keys, folders, order);
  }

  /** `folders` counts the keys `keys`, and `order` lists its keys in insertion order. */
  ghost predicate Counted(keys: seq<string>, folders: map<string, nat>, order: seq<string>)
  {
    && order == Distinct(keys)
    && (forall d :: d in folders <==> d in order)
    && (forall d :: d in folders ==> folders[d] == Occurrences(keys, d))
  }

  lemma EntriesOfCounted(keys: seq<string>, folders: map<string, nat>, order: seq<string>)
    requires Counted(keys, folders, order)
    ensures Entries(folders, order) == CountsFor(keys, Distinct(keys))
  {
  }

  /** Counting key `j` adds one to its count, and lists it when it is new. */
  lemma CountStep(keys: seq<string>, j: nat, folders: map<string, nat>, order: seq<string>, c: nat)
    requires j < |keys| && Counted(keys[..j], folders, order)
    requires c == if keys[j] in folders then folders[keys[j]] else 0
    ensures Counted(keys[..j + 1], folders[keys[j] := c + 1], if keys[j] in folders then order else order + [keys[j]])
  {
    var d := keys[j];
    var folders1 := folders[d := c + 1];
    assert keys[..j + 1] == keys[..j] + [d];
    assert keys[..j + 1][..j] == keys[..j];
    forall e | e in folders1 ensures folders1[e] == Occurrences(keys[..j + 1], e) {
      if e != d {
        assert folders1[e] == folders[e];
      }
    }
  }

  lemma MissingTopStep(files: seq<TreeEntry>, dirs: seq<string>, k: nat)
    requires k < |dirs|
    ensures MissingTopIssues(files, dirs[..k + 1]) == MissingTopIssues(files, dirs[..k])
      + (if HasPath(files, TopFile(dirs[k])) then [] else [MissingTopFile(dirs[k])])
  {
    assert dirs[..k + 1][..k] == dirs[..k];
  }

  lemma {:induction false} SumCountsFor(keys: seq<string>, ks: seq<string>)
    ensures SumCounts(CountsFor(keys, ks)) == SumOccurrences(keys, ks)
  {
    if ks != [] {
      var init := ks[..|ks| - 1];
      SumCountsFor(keys, init);
      assert CountsFor(keys, ks)[..|ks| - 1] == CountsFor(keys, init);
    }
  }

  /** Every note is counted in exactly one folder: the folder counts add up to the number of notes. */
  lemma FolderCountsSumToTotal(files: seq<TreeEntry>)
    ensures SumCounts(FolderCounts(files)) == |files|
  {
    SumCountsFor(FolderKeys(files), Distinct(FolderKeys(files)));
    OccurrencesSum(FolderKeys(files));
  }

  /** A folder is reported missing its top note exactly when it is listed and the note is absent. */
  lemma {:induction false} MissingTopIssuesMembers(files: seq<TreeEntry>, dirs: seq<string>)
    ensures forall i :: 0 <= i < |MissingTopIssues(files, dirs)| ==> MissingTopIssues(files, dirs)[i].MissingTopFile?
    ensures forall p :: MissingTopFile(p) in MissingTopIssues(files, dirs) <==> p in dirs && !HasPath(files, TopFile(p))
  {
    if dirs != [] {
      var init := dirs[..|dirs| - 1];
      MissingTopIssuesMembers(files, init);
      assert dirs == init + [dirs[|dirs| - 1]];
    }
  }

  /**
   * The score is 100 exactly when nothing is deducted, that is when the only
   * issue, if any, is the note count (which costs no points).
   */
  lemma FullScoreIffOnlyNoteCountIssue(files: seq<TreeEntry>, today: string)
    ensures Clamp(100 - Deduction(files, today)) == 100 <==>
      forall i :: 0 <= i < |ExpectedIssues(files, today)| ==> ExpectedIssues(files, today)[i].ManyNotes?
  {
    var m := MissingTopIssues(files, ProjectDirs(files));
    MissingTopIssuesMembers(files, ProjectDirs(files));
    var e := ExpectedIssues(files, today);
    if Deduction(files, today) != 0 {
      if !HasPath(files, DailyPath(today)) {
        assert e[0] == NoDailyNote;
      } else if !HasPath(files, "Home.md") {
        assert e[0] == NoHomeNote;
      } else if |SmallFiles(files)| > 0 {
        assert e[0] == EmptyFiles(|SmallFiles(files)|);
      } else {
        assert |m| > 0;
        assert e[0] == m[0];
      }
    }
  }
}
