/**
 * The TODO items of the vault: the line parser of `getTodos`
 * (app.js:127-148), the list filter of `renderTodoList` (app.js:981-985),
 * and the file edits of `addTodo` (app.js:1035-1059), `toggleTodo`
 * (app.js:1395-1428) and `deleteTodo` (app.js:1431-1455).
 *
 * A TODO is a line that, once trimmed, starts with `- [ ]` (open), `- [/]`
 * (in progress, listed as open) or `- [x]` (done). The texts `readFile`
 * returns are the map `texts`; a path missing from it is a read that failed.
 */
module Todos {
  import opened Text
  import opened Listing

  datatype Todo = Todo(task: string, project: string, done: bool, file: string)

  /** Only the first 20 candidate files are read. */
  const MaxTodoFiles: nat := 20

  const Open: string := "- [ ] "
  const InProgress: string := "- [/] "
  const Done: string := "- [x] "

  /** The task is trimmed: no white space at either end. */
  predicate Trimmed(task: string)
  {
    task == [] || (!IsSpace(task[0]) && !IsSpace(task[|task| - 1]))
  }

  /** The task and the done flag of a TODO line, or `None` for any other line. */
  function ParseLine(line: string): (r: Option<(string, bool)>)
    ensures r.Some? <==> StartsWith(Trim(line), "- [ ]") || StartsWith(Trim(line), "- [/]") || StartsWith(Trim(line), "- [x]")
    ensures r.Some? ==> (r.value.1 <==> !StartsWith(Trim(line), "- [ ]") && !StartsWith(Trim(line), "- [/]"))
    ensures r.Some? ==> Trimmed(r.value.0)
  {
    var s := Trim(line);
    if StartsWith(s, "- [ ]") || StartsWith(s, "- [/]") then
      var rest := if |s| > 5 && s[5] == ' ' then s[6..] else s[5..];
      TrimEnds(rest);
      Some((Trim(rest), false))
    else if StartsWith(s, "- [x]") then
      var rest := ReplaceFirstLiteral(s, Done, "");
      TrimEnds(rest);
      Some((Trim(rest), true))
    else None
  }

  /** A line whose trimmed text is a marker followed by a trimmed task parses back to that task. */
  lemma ParseMarkedLine(line: string, marker: string, task: string)
    requires marker == Open || marker == InProgress || marker == Done
    requires Trim(line) == marker + task && Trimmed(task)
    ensures ParseLine(line) == Some((task, marker == Done))
  {
    var s := Trim(line);
    assert s[..5] == marker[..5];
    assert s[3] == marker[3];
    assert s[5] == ' ' && s[6..] == task;
    TrimOfUntrimmed(task);
    if marker == Done {
      assert !StartsWith(s, "- [ ]") && !StartsWith(s, "- [/]") && StartsWith(s, "- [x]");
      assert OccursAt(s, Done, 0);
      assert IndexOf(s, Done) == Some(0);
      assert ReplaceFirstLiteral(s, Done, "") == s[..0] + "" + s[6..];
      assert s[..0] + "" + s[6..] == task;
    }
  }

  /** A project's TODO file is `Home.md` or a folder under `Projects/`. */
  predicate IsTodoTarget(path: string)
  {
    (StartsWith(path, "Projects/") && !Contains(path, "ログ")) || path == "Home.md"
  }

  /** The project a TODO file belongs to. */
  function ProjectOf(path: string): string
  {
    if StartsWith(path, "Projects/") then Segment(path, 1) else "Home"
  }

  function TargetOf(f: TreeEntry): bool
  {
    IsTodoTarget(f.path)
  }

  /** The files `getTodos` reads: the first 20 candidates, in listing order. */
  function Scanned(files: seq<TreeEntry>): (r: seq<TreeEntry>)
    ensures |r| <= MaxTodoFiles
    ensures forall f :: f in r ==> f in files && IsTodoTarget(f.path)
  {
    var targets := Filter(files, TargetOf);
    assert forall f :: f in targets ==> f in files && TargetOf(f);
    if |targets| <= MaxTodoFiles then targets else targets[..MaxTodoFiles]
  }

  /** The TODOs of the lines `lines` of the file `file`. */
  function LineTodos(lines: seq<string>, project: string, file: string): (r: seq<Todo>)
    ensures |r| <= |lines|
  {
    if lines == [] then []
    else
      var init := lines[..|lines| - 1];
      match ParseLine(lines[|lines| - 1])
      case None => LineTodos(init, project, file)
      case Some((task, done)) => LineTodos(init, project, file) + [Todo(task, project, done, file)]
  }

  /** The TODOs of one file of the listing; none when it could not be read. */
  function FileTodos(texts: map<string, string>, path: string): seq<Todo>
  {
    if path in texts then LineTodos(Split(texts[path], '\n'), ProjectOf(path), path) else []
  }

  function CollectTodos(texts: map<string, string>, fs: seq<TreeEntry>): seq<Todo>
  {
    if fs == [] then [] else CollectTodos(texts, fs[..|fs| - 1]) + FileTodos(texts, fs[|fs| - 1].path)
  }

  /** What `getTodos()` returns. */
  function TodoList(files: seq<TreeEntry>, texts: map<string, string>): seq<Todo>
  {
    CollectTodos(texts, Scanned(files))
  }

  /** The line loop of `getTodos` over one file's text. */
  method ParseTodos(content: string, project: string, file: string) returns (found: seq<Todo>)
    ensures found == LineTodos(Split(content, '\n'), project, file)
  {
    var lines := Split(content, '\n');
    found := [];
    var j := 0;
    while j < |lines|
      invariant 0 <= j <= |lines|
      invariant found == LineTodos(lines[..j], project, file)
    {
      var s := Trim(lines[j]);
      assert lines[..j + 1][..j] == lines[..j];
      if StartsWith(s, "- [ ]") || StartsWith(s, "- [/]") {
        var rest := if |s| > 5 && s[5] == ' ' then s[6..] else s[5..];
        found := found + [Todo(Trim(rest), project, false, file)];
      } else if StartsWith(s, "- [x]") {
        found := found + [Todo(Trim(ReplaceFirstLiteral(s, Done, "")), project, true, file)];
      }
      j := j + 1;
    }
    assert lines[..|lines|] == lines;
  }

  /** `getTodos()` over the note list `files`. */
  method GetTodos(files: seq<TreeEntry>, texts: map<string, string>) returns (todos: seq<Todo>)
    ensures todos == TodoList(files, texts)
  {
    var targets := Filter(files, TargetOf);
    var ts := if |targets| <= MaxTodoFiles then targets else targets[..MaxTodoFiles];
    assert ts == Scanned(files);
    todos := [];
    var i := 0;
    while i < |ts|
      invariant 0 <= i <= |ts|
      invariant todos == CollectTodos(texts, ts[..i])
    {
      CollectStep(texts, ts, i);
      var found := ReadTodos(texts, ts[i].path);
      todos := todos + found;
      i := i + 1;
    }
    assert ts[..|ts|] == ts;
  }

  /** One file of `getTodos`: its TODOs when it could be read. */
  method ReadTodos(texts: map<string, string>, path: string) returns (found: seq<Todo>)
    ensures found == FileTodos(texts, path)
  {
    found := [];
    if path in texts {
      var project := if StartsWith(path, "Projects/") then Segment(path, 1) else "Home";
      found := ParseTodos(texts[path], project, path);
    }
  }

  lemma CollectStep(texts: map<string, string>, fs: seq<TreeEntry>, i: nat)
    requires i < |fs|
    ensures CollectTodos(texts, fs[..i + 1]) == CollectTodos(texts, fs[..i]) + FileTodos(texts, fs[i].path)
  {
    assert fs[..i + 1][..i] == fs[..i];
  }

  /** Every TODO listed comes from a line of a scanned candidate file that was read, and names that file's project. */
  lemma {:induction false} LineTodosFrom(lines: seq<string>, project: string, file: string)
    ensures forall t :: t in LineTodos(lines, project, file) ==> t.project == project && t.file == file
  {
    if lines != [] {
      LineTodosFrom(lines[..|lines| - 1], project, file);
    }
  }

  lemma {:induction false} CollectTodosFrom(texts: map<string, string>, fs: seq<TreeEntry>)
    ensures forall t :: t in CollectTodos(texts, fs) ==>
      t.file in texts && t.project == ProjectOf(t.file) && exists f :: f in fs && f.path == t.file
  {
    if fs != [] {
      var init := fs[..|fs| - 1];
      var last := fs[|fs| - 1];
      CollectTodosFrom(texts, init);
      if last.path in texts {
        LineTodosFrom(Split(texts[last.path], '\n'), ProjectOf(last.path), last.path);
      }
      forall t | t in CollectTodos(texts, fs)
        ensures t.file in texts && t.project == ProjectOf(t.file) && exists f :: f in fs && f.path == t.file
      {
        if t in CollectTodos(texts, init) {
          var f :| f in init && f.path == t.file;
          assert f in fs;
        } else {
          assert t in FileTodos(texts, last.path);
          assert last in fs;
        }
      }
    }
  }

  /** Every TODO `getTodos` lists comes from a readable candidate file among the first 20, and carries its project. */
  lemma TodoListSound(files: seq<TreeEntry>, texts: map<string, string>, t: Todo)
    requires t in TodoList(files, texts)
    ensures t.file in texts && IsTodoTarget(t.file) && t.project == ProjectOf(t.file)
    ensures exists f :: f in files && f.path == t.file
  {
    CollectTodosFrom(texts, Scanned(files));
  }

  // ----- addTodo -----

  datatype TodoError = EmptyTask | NotConnected | TaskNotFound

  datatype Result<T> = Ok(value: T) | Err(error: TodoError)

  /** A file to write back: its path, its new text and the commit message. */
  datatype Write = Write(path: string, content: string, message: string)

  /** `'Home.md'` or `'Projects/<p>/<p>.md'` */
  function TodoPath(proj: string): string
  {
    if proj == "Home" then "Home.md" else "Projects/" + proj + "/" + proj + ".md"
  }

  /** The text of a new project file. */
  function ProjectHeader(proj: string): string
  {
    "# " + proj + "\n\n## TODO\n"
  }

  /** `[name] ` for a signed-in user. */
  function UserTag(user: Option<string>): string
  {
    match user
    case None => ""
    case Some(name) => "[" + name + "] "
  }

  /**
   * `addTodo()`: `input` and `projInput` are the two text fields,
   * `connected` says whether a GitHub client exists, and `existing` is what
   * reading the target file gave (`None` when the read failed).
   */
  function AddTodo(input: string, projInput: string, connected: bool, existing: Option<string>,
                   user: Option<string>): (r: Result<Write>)
    ensures r == Err(EmptyTask) <==> Trim(input) == ""
    ensures r == Err(NotConnected) <==> Trim(input) != "" && !connected
    ensures r.Ok? ==> r.value.path == TodoPath(if Trim(projInput) == "" then "Home" else Trim(projInput))
    ensures r.Ok? ==> EndsWith(r.value.content, "\n" + Open + Trim(input))
  {
    var task := Trim(input);
    if task == "" then Err(EmptyTask)
    else if !connected then Err(NotConnected)
    else
      var proj := if Trim(projInput) == "" then "Home" else Trim(projInput);
      var base := match existing case Some(c) => c case None => ProjectHeader(proj);
      var content := base + "\n" + Open + task;
      assert content[|content| - |"\n" + Open + task|..] == "\n" + Open + task;
      Ok(Write(TodoPath(proj), content, UserTag(user) + "\U{1F4CB} Add TODO: " + Prefix(task, 30)))
  }

  /** Appending a TODO line adds exactly that TODO, at the end, to the file's list. */
  lemma AppendTodoLine(content: string, task: string, project: string, file: string)
    requires task != [] && Trimmed(task) && '\n' !in task
    ensures LineTodos(Split(content + "\n" + Open + task, '\n'), project, file)
      == LineTodos(Split(content, '\n'), project, file) + [Todo(task, project, false, file)]
  {
    var line := Open + task;
    assert '\n' !in line by {
      assert forall i :: 0 <= i < |line| ==> line[i] == (if i < 6 then Open[i] else task[i - 6]);
    }
    assert content + "\n" + Open + task == content + ['\n'] + line;
    SplitAppendLine(content, '\n', line);
    var lines := Split(content, '\n') + [line];
    assert lines[..|lines| - 1] == Split(content, '\n');
    TrimOfUntrimmed(line);
    ParseMarkedLine(line, Open, task);
  }

  /**
   * The file `addTodo` writes is read back as belonging to the first
   * segment of the project that was typed: the project itself when it has
   * no `/`, and its outer folder when it has.
   */
  lemma TodoPathProject(proj: string)
    ensures ProjectOf(TodoPath(proj)) == Segment(proj, 0)
    ensures '/' !in proj ==> ProjectOf(TodoPath(proj)) == proj
  {
    if proj != "Home" {
      var path := TodoPath(proj);
      assert path == "Projects" + ['/'] + (proj + ['/'] + (proj + ".md"));
      NestedSegment(proj, proj + ".md");
      assert StartsWith(path, "Projects/") by {
        assert path[..9] == "Projects/";
      }
    } else {
      assert !StartsWith("Home.md", "Projects/");
      SplitJoin(["Home"], '/');
    }
    if '/' !in proj {
      SplitJoin([proj], '/');
    }
  }

  /** Segment 1 of `Projects/<a>/<b>` is the first segment of `a`. */
  lemma NestedSegment(a: string, b: string)
    ensures Segment("Projects" + ['/'] + (a + ['/'] + b), 1) == Segment(a, 0)
  {
    SplitConcat("Projects", '/', a + ['/'] + b);
    SplitConcat(a, '/', b);
    assert Split("Projects", '/') == ["Projects"] by {
      SplitJoin(["Projects"], '/');
    }
  }

  /**
   * After `addTodo` writes its file, the file lists the TODOs it listed
   * before plus the new open one, under the project the path names: the
   * typed project (`Home` when the field is empty), or its first segment
   * when it contains `/`.
   */
  lemma AddTodoAppends(input: string, projInput: string, existing: string, user: Option<string>)
    requires Trim(input) != "" && '\n' !in input
    ensures var proj := if Trim(projInput) == "" then "Home" else Trim(projInput);
      var w := AddTodo(input, projInput, true, Some(existing), user).value;
      && w.path == TodoPath(proj)
      && LineTodos(Split(w.content, '\n'), ProjectOf(w.path), w.path)
         == LineTodos(Split(existing, '\n'), Segment(proj, 0), w.path) + [Todo(Trim(input), Segment(proj, 0), false, w.path)]
  {
    var task := Trim(input);
    var proj := if Trim(projInput) == "" then "Home" else Trim(projInput);
    TrimEnds(input);
    assert '\n' !in task by {
      TrimSlice(input);
      var i, j :| 0 <= i <= j <= |input| && task == input[i..j];
      forall k | 0 <= k < |task| ensures task[k] != '\n' {
        assert task[k] == input[i + k];
      }
    }
    TodoPathProject(proj);
    AppendTodoLine(existing, task, Segment(proj, 0), TodoPath(proj));
  }

  // ----- renderTodoList -----

  predicate StatusShown(status: string, t: Todo)
  {
    (status == "pending" ==> !t.done) && (status == "done" ==> t.done)
  }

  /** The list filter: the status filter (`pending`, `done`, anything else shows all) and the project filter (`""` shows all). */
  predicate Shown(status: string, project: string, t: Todo)
  {
    StatusShown(status, t) && (project == "" || t.project == project)
  }

  function IsOpen(t: Todo): bool { !t.done }
  function IsDone(t: Todo): bool { t.done }

  /** The TODOs `renderTodoList` shows. */
  function FilterTodos(todos: seq<Todo>, status: string, project: string): seq<Todo>
  {
    var byStatus :=
      if status == "pending" then Filter(todos, IsOpen)
      else if status == "done" then Filter(todos, IsDone)
      else todos;
    if project != "" then Filter(byStatus, (t: Todo) => t.project == project) else byStatus
  }

  /** The two filters in sequence keep exactly the TODOs that pass both, in their order. */
  lemma FilterTodosExact(todos: seq<Todo>, status: string, project: string)
    ensures FilterTodos(todos, status, project) == Filter(todos, (t: Todo) => Shown(status, project, t))
  {
    var shown := (t: Todo) => Shown(status, project, t);
    var byProject := (t: Todo) => t.project == project;
    var byStatus: Todo -> bool :=
      if status == "pending" then IsOpen else if status == "done" then IsDone else (t: Todo) => true;
    var all := (t: Todo) => true;
    FilterAllKept(todos, all);
    var s := if status == "pending" then Filter(todos, IsOpen) else if status == "done" then Filter(todos, IsDone) else todos;
    assert s == Filter(todos, byStatus);
    if project != "" {
      FilterFilter(todos, byStatus, byProject, shown);
    } else {
      FilterSame(todos, byStatus, shown);
    }
  }

  /** The summary line's two counts add up to the number of TODOs. */
  lemma OpenAndDoneCountAll(todos: seq<Todo>)
    ensures |Filter(todos, IsOpen)| + |Filter(todos, IsDone)| == |todos|
  {
    FilterCount(todos, IsOpen);
    FilterCount(todos, IsDone);
    CountComplement(todos, IsDone, IsOpen);
  }

  // ----- deleteTodo -----

  /** A line that `deleteTodo` removes for the TODO `t`. */
  predicate IsLineOf(line: string, t: Todo)
  {
    Trim(line) == (if t.done then Done else Open) + t.task || Trim(line) == InProgress + t.task
  }

  /** No line of `lines` is the line of `t`. */
  predicate NoLineOf(lines: seq<string>, t: Todo)
  {
    forall i :: 0 <= i < |lines| ==> !IsLineOf(lines[i], t)
  }

  /** The test `deleteTodo` keeps a line by. */
  function KeepFor(t: Todo): string -> bool
  {
    (l: string) => !IsLineOf(l, t)
  }

  function Kept(lines: seq<string>, t: Todo): seq<string>
  {
    Filter(lines, KeepFor(t))
  }

  /** The new text of the file after `deleteTodo(t)`, or `TaskNotFound`. */
  function DeleteTodo(content: string, t: Todo): Result<string>
  {
    var lines := Split(content, '\n');
    var kept := Kept(lines, t);
    if |kept| == |lines| then Err(TaskNotFound) else Ok(Join(kept, '\n'))
  }

  /** `deleteTodo` fails exactly when no line of the file is the TODO's line. */
  lemma DeleteTodoNotFound(content: string, t: Todo)
    ensures DeleteTodo(content, t).Err? <==> NoLineOf(Split(content, '\n'), t)
  {
    var lines := Split(content, '\n');
    FilterDrops(lines, KeepFor(t));
    assert forall i :: 0 <= i < |lines| ==> KeepFor(t)(lines[i]) == !IsLineOf(lines[i], t);
  }

  /**
   * Otherwise the new file consists of the other lines, in order, and none
   * of its lines is the TODO's line.
   */
  lemma DeleteTodoKeepsOtherLines(content: string, t: Todo)
    requires DeleteTodo(content, t).Ok?
    ensures var kept := Kept(Split(content, '\n'), t);
      var r := DeleteTodo(content, t).value;
      (kept != [] ==> Split(r, '\n') == kept) && (kept == [] ==> r == "")
    ensures forall line :: line in Split(DeleteTodo(content, t).value, '\n') ==> !IsLineOf(line, t)
  {
    var lines := Split(content, '\n');
    var kept := Kept(lines, t);
    if kept != [] {
      assert forall k :: 0 <= k < |kept| ==> '\n' !in kept[k] by {
        forall k | 0 <= k < |kept| ensures '\n' !in kept[k] {
          assert kept[k] in lines;
        }
      }
      SplitJoin(kept, '\n');
      forall line | line in kept ensures !IsLineOf(line, t) {
        assert KeepFor(t)(line);
      }
    } else {
      assert Join(kept, '\n') == "";
      assert Split("", '\n') == [""];
      assert !IsLineOf("", t) by {
        assert Trim("") == "";
      }
    }
  }

  // ----- toggleTodo -----

  /**
   * `toggleTodo(t)` as the source writes it: `content.replace(old, new)`
   * on the first occurrence of the marked task anywhere in the file, with
   * `$`-patterns of the replacement expanded; `TaskNotFound` when the text
   * does not change.
   */
  function ToggleAsWritten(content: string, t: Todo): Result<string>
  {
    var updated :=
      if t.done then ReplaceFirst(content, Done + t.task, Open + t.task)
      else
        var u := ReplaceFirst(content, Open + t.task, Done + t.task);
        if u == content then ReplaceFirst(content, InProgress + t.task, Done + t.task) else u;
    if updated == content then Err(TaskNotFound) else Ok(updated)
  }

  /** The first occurrence of `p` in `s` exists, and `r` is `s` with the marker character of it set to `c`. */
  predicate FlipsFirst(s: string, r: string, p: string, c: char)
  {
    IndexOf(s, p).Some? && IndexOf(s, p).value + 3 < |s| && r == s[IndexOf(s, p).value + 3 := c]
  }

  /** Replacing one marker of the same length by another always changes the text where the pattern occurs. */
  lemma ReplaceMarkerChanges(s: string, marker: string, repl: string, task: string)
    requires |marker| == 6 && |repl| == 6 && '$' !in repl && marker[3] != repl[3]
    requires Contains(s, marker + task)
    ensures ReplaceFirst(s, marker + task, repl + task) != s
  {
    var p := marker + task;
    var i := IndexOf(s, p).value;
    assert OccursAt(s, p, i);
    SubstitutionOfPlain(repl, task, s, i, |p|);
    var r := ReplaceFirst(s, p, repl + task);
    assert r == s[..i] + (repl + Substitution(task, s, i, |p|)) + s[i + |p|..];
    assert r[i + 3] == repl[3];
    assert s[i + 3] == s[i..i + |p|][3] == marker[3];
  }

  /** Without a `$` in the task, the replacement changes the marker character of the first occurrence and nothing else. */
  lemma ReplaceMarkerOneChar(s: string, marker: string, repl: string, task: string)
    requires |marker| == 6 && |repl| == 6 && '$' !in repl && '$' !in task
    requires marker[..3] == repl[..3] && marker[4..] == repl[4..]
    requires Contains(s, marker + task)
    ensures FlipsFirst(s, ReplaceFirst(s, marker + task, repl + task), marker + task, repl[3])
  {
    var p, q := marker + task, repl + task;
    var i := IndexOf(s, p).value;
    assert OccursAt(s, p, i);
    assert '$' !in q;
    var r := ReplaceFirst(s, p, q);
    assert r == s[..i] + q + s[i + |p|..];
    forall j | 0 <= j < |s|
      ensures r[j] == s[i + 3 := repl[3]][j]
    {
      if i <= j < i + |p| {
        assert s[j] == s[i..i + |p|][j - i] == p[j - i];
        assert r[j] == q[j - i];
      }
    }
  }

  /**
   * The source's toggle fails exactly when the text has no occurrence of
   * the TODO with its marker (`- [x] ` for a done one, otherwise `- [ ] `
   * or `- [/] `): a replacement always changes the marker character.
   */
  lemma ToggleAsWrittenNotFound(content: string, t: Todo)
    ensures ToggleAsWritten(content, t).Err? <==>
      if t.done then !Contains(content, Done + t.task)
      else !Contains(content, Open + t.task) && !Contains(content, InProgress + t.task)
  {
    if t.done {
      if Contains(content, Done + t.task) {
        ReplaceMarkerChanges(content, Done, Open, t.task);
      }
    } else {
      if Contains(content, Open + t.task) {
        ReplaceMarkerChanges(content, Open, Done, t.task);
      } else if Contains(content, InProgress + t.task) {
        ReplaceMarkerChanges(content, InProgress, Done, t.task);
      }
    }
  }

  /**
   * When the task has no `$`, a successful toggle of the source keeps the
   * length of the text and changes one character: the marker character of
   * the first occurrence of the marked task; an in-progress line is
   * considered only when no open one occurs.
   */
  lemma ToggleAsWrittenOneChar(content: string, t: Todo)
    requires '$' !in t.task && ToggleAsWritten(content, t).Ok?
    ensures var r := ToggleAsWritten(content, t).value;
      if t.done then FlipsFirst(content, r, Done + t.task, ' ')
      else if Contains(content, Open + t.task) then FlipsFirst(content, r, Open + t.task, 'x')
      else FlipsFirst(content, r, InProgress + t.task, 'x')
  {
    ToggleAsWrittenNotFound(content, t);
    if t.done {
      ReplaceMarkerOneChar(content, Done, Open, t.task);
    } else if Contains(content, Open + t.task) {
      ReplaceMarkerOneChar(content, Open, Done, t.task);
      ReplaceMarkerChanges(content, Open, Done, t.task);
    } else {
      assert ReplaceFirst(content, Open + t.task, Done + t.task) == content;
      ReplaceMarkerOneChar(content, InProgress, Done, t.task);
    }
  }

  /** The index of the first line at or after `from` whose trimmed text is `target`. */
  function FindLine(lines: seq<string>, target: string, from: nat): (r: Option<nat>)
    requires from <= |lines|
    ensures r.Some? ==> from <= r.value < |lines| && Trim(lines[r.value]) == target
    ensures r.Some? ==> forall k :: from <= k < r.value ==> Trim(lines[k]) != target
    ensures r.None? ==> forall k :: from <= k < |lines| ==> Trim(lines[k]) != target
    decreases |lines| - from
  {
    if from == |lines| then None
    else if Trim(lines[from]) == target then Some(from)
    else FindLine(lines, target, from + 1)
  }

  /** The white space before the trimmed text of `line`. */
  function Lead(line: string): string
  {
    var e := TrimEnd(line);
    line[..|e| - |TrimStart(e)|]
  }

  /** The white space after the trimmed text of `line`. */
  function Trail(line: string): string
  {
    line[|TrimEnd(line)|..]
  }

  lemma LineParts(line: string)
    ensures line == Lead(line) + Trim(line) + Trail(line)
    ensures AllSpace(Lead(line)) && AllSpace(Trail(line))
  {
    var e := TrimEnd(line);
    assert e == line[..|e|] && AllSpace(line[|e|..]) by {
      TrimEndSpec(line);
    }
    var st := TrimStart(e);
    var i := |e| - |st|;
    assert st == e[i..] && AllSpace(e[..i]) by {
      TrimStartSpec(e);
    }
    assert Lead(line) == line[..i] == e[..i];
    assert Trim(line) == st == line[i..|e|];
    assert Trail(line) == line[|e|..];
    assert line == line[..i] + line[i..|e|] + line[|e|..];
  }

  /** A word padded with white space has that white space as its lead and its trail. */
  lemma LeadTrailOfPadded(w1: string, x: string, w2: string)
    requires AllSpace(w1) && AllSpace(w2)
    requires x != [] && !IsSpace(x[0]) && !IsSpace(x[|x| - 1])
    ensures Lead(w1 + x + w2) == w1 && Trail(w1 + x + w2) == w2
  {
    var s := w1 + x + w2;
    assert (w1 + x)[|w1 + x| - 1] == x[|x| - 1];
    TrimEndPadded(w1 + x, w2);
    TrimStartPadded(w1, x);
    assert s[|w1 + x|..] == w2;
    assert s[..|w1|] == w1;
  }

  /** `line` with the 6-character marker at the start of its trimmed text replaced by `marker`. */
  function Retag(line: string, marker: string): string
  {
    var s := Trim(line);
    if |s| < 6 then line else Lead(line) + marker + s[6..] + Trail(line)
  }

  lemma RetagParses(line: string, prev: string, marker: string, task: string)
    requires prev == Open || prev == InProgress || prev == Done
    requires marker == Open || marker == Done
    requires Trim(line) == prev + task && Trimmed(task) && '\n' !in line
    ensures Trim(Retag(line, marker)) == marker + task
    ensures ParseLine(Retag(line, marker)) == Some((task, marker == Done))
    ensures '\n' !in Retag(line, marker)
  {
    RetagShape(line, prev, marker, task);
    TrimOfPadded(Lead(line), marker + task, Trail(line));
    ParseMarkedLine(Retag(line, marker), marker, task);
  }

  /** The retagged line keeps the white space around the trimmed text and has no new line break. */
  lemma RetagShape(line: string, prev: string, marker: string, task: string)
    requires |prev| == 6 && prev[5] == ' ' && |marker| == 6 && marker[0] == '-' && '\n' !in marker
    requires Trim(line) == prev + task && Trimmed(task) && '\n' !in line
    ensures task != [] && !IsSpace((marker + task)[|marker + task| - 1])
    ensures Retag(line, marker) == Lead(line) + (marker + task) + Trail(line)
    ensures AllSpace(Lead(line)) && AllSpace(Trail(line)) && !IsSpace((marker + task)[0])
    ensures '\n' !in Retag(line, marker)
  {
    var s := Trim(line);
    LineParts(line);
    TrimEnds(line);
    assert task != [] by {
      assert s[|s| - 1] != ' ';
    }
    assert s[6..] == task;
    var x := marker + task;
    assert x[|x| - 1] == task[|task| - 1];
    assert Retag(line, marker) == Lead(line) + x + Trail(line);
    assert '\n' !in Lead(line) && '\n' !in s && '\n' !in Trail(line);
    assert '\n' !in task;
  }

  /**
   * `toggleTodo(t)` as intended: the first line whose trimmed text is this
   * TODO (for an open one, an open line first, then an in-progress line)
   * gets the other marker; every other line is kept.
   */
  function Toggle(content: string, t: Todo): Result<string>
  {
    var lines := Split(content, '\n');
    var found :=
      if t.done then FindLine(lines, Done + t.task, 0)
      else if FindLine(lines, Open + t.task, 0).Some? then FindLine(lines, Open + t.task, 0)
      else FindLine(lines, InProgress + t.task, 0);
    match found
    case None => Err(TaskNotFound)
    case Some(k) => Ok(Join(lines[k := Retag(lines[k], if t.done then Open else Done)], '\n'))
  }

  /** A line the toggle of `t` may change: for a done TODO a done line, otherwise an open or in-progress one. */
  predicate ToggleLineOf(line: string, t: Todo)
  {
    if t.done then Trim(line) == Done + t.task else Trim(line) == Open + t.task || Trim(line) == InProgress + t.task
  }

  predicate NoToggleLine(lines: seq<string>, t: Todo)
  {
    forall i :: 0 <= i < |lines| ==> !ToggleLineOf(lines[i], t)
  }

  /** The intended toggle fails exactly when no line is a line of the TODO. */
  lemma ToggleNotFound(content: string, t: Todo)
    ensures Toggle(content, t).Err? <==> NoToggleLine(Split(content, '\n'), t)
  {
  }

  /**
   * `after` is `lines` with line `k`, a line of `t`, changed into the line
   * of the same task in the other state.
   */
  predicate FlipsLine(lines: seq<string>, after: seq<string>, k: int, t: Todo)
  {
    && 0 <= k < |lines| && |after| == |lines|
    && ToggleLineOf(lines[k], t)
    && ParseLine(lines[k]) == Some((t.task, t.done))
    && ParseLine(after[k]) == Some((t.task, !t.done))
    && forall i :: 0 <= i < |lines| && i != k ==> after[i] == lines[i]
  }

  /**
   * Otherwise it changes one line of the TODO, which parses back as the
   * same task in the other state, and leaves every other line as it was.
   */
  lemma ToggleFlipsOwnLine(content: string, t: Todo)
    requires Trimmed(t.task) && Toggle(content, t).Ok?
    ensures exists k :: FlipsLine(Split(content, '\n'), Split(Toggle(content, t).value, '\n'), k, t)
  {
    var lines := Split(content, '\n');
    var marker := if t.done then Open else Done;
    var k, prev := ToggleFound(content, t);
    FlipsAt(lines, k, prev, t);
    RetagParses(lines[k], prev, marker, t.task);
    RetagKeepsLines(lines, k, marker);
  }

  /** Retagging line `k`, a line of `t` with the marker `prev`, flips it. */
  lemma FlipsAt(lines: seq<string>, k: nat, prev: string, t: Todo)
    requires Trimmed(t.task) && k < |lines| && ToggleLineOf(lines[k], t) && '\n' !in lines[k]
    requires prev == (if t.done then Done else if Trim(lines[k]) == Open + t.task then Open else InProgress)
    requires Trim(lines[k]) == prev + t.task
    ensures FlipsLine(lines, lines[k := Retag(lines[k], if t.done then Open else Done)], k, t)
  {
    var marker := if t.done then Open else Done;
    var after := lines[k := Retag(lines[k], marker)];
    assert ParseLine(after[k]) == Some((t.task, !t.done)) by {
      RetagParses(lines[k], prev, marker, t.task);
    }
    assert ParseLine(lines[k]) == Some((t.task, t.done)) by {
      ParseMarkedLine(lines[k], prev, t.task);
    }
  }

  /** Retagging a line adds no line break, so the file splits into the same lines again. */
  lemma RetagKeepsLines(lines: seq<string>, k: nat, marker: string)
    requires k < |lines| && forall j :: 0 <= j < |lines| ==> '\n' !in lines[j]
    requires '\n' !in Retag(lines[k], marker)
    ensures Split(Join(lines[k := Retag(lines[k], marker)], '\n'), '\n') == lines[k := Retag(lines[k], marker)]
  {
    var updated := lines[k := Retag(lines[k], marker)];
    forall j | 0 <= j < |updated| ensures '\n' !in updated[j] {
      if j != k {
        assert updated[j] == lines[j];
      }
    }
    SplitJoin(updated, '\n');
  }

  /**
   * Toggling an open TODO done and then toggling it back restores the file,
   * provided no line was already the done line of the same task (that line
   * would be the one reopened).
   */
  lemma ToggleRoundTrip(content: string, t: Todo)
    requires !t.done && Trimmed(t.task)
    requires exists i :: 0 <= i < |Split(content, '\n')| && Trim(Split(content, '\n')[i]) == Open + t.task
    requires forall i :: 0 <= i < |Split(content, '\n')| ==> Trim(Split(content, '\n')[i]) != Done + t.task
    ensures Toggle(content, t).Ok?
    ensures Toggle(Toggle(content, t).value, t.(done := true)) == Ok(content)
  {
    var lines := Split(content, '\n');
    var k := FindLine(lines, Open + t.task, 0).value;
    var flipped := Retag(lines[k], Done);
    var after := lines[k := flipped];
    assert Toggle(content, t) == Ok(Join(after, '\n'));
    RetagBack(lines[k], t.task);
    RetagKeepsLines(lines, k, Done);
    FindFlipped(lines, k, flipped, Done + t.task);
    assert after[k := Retag(flipped, Open)] == lines;
    JoinSplit(content, '\n');
  }

  /** Marking an open line done and then open again gives back the line. */
  lemma RetagBack(line: string, task: string)
    requires Trim(line) == Open + task && Trimmed(task) && '\n' !in line
    ensures Trim(Retag(line, Done)) == Done + task && '\n' !in Retag(line, Done)
    ensures Retag(Retag(line, Done), Open) == line
  {
    RetagShape(line, Open, Done, task);
    RetagParses(line, Open, Done, task);
    LineParts(line);
    LeadTrailOfPadded(Lead(line), Done + task, Trail(line));
    RetagShape(Retag(line, Done), Done, Open, task);
  }

  /** A line changed into `target` is the first `target` line when no line was one before. */
  lemma FindFlipped(lines: seq<string>, k: nat, flipped: string, target: string)
    requires k < |lines| && Trim(flipped) == target
    requires forall i :: 0 <= i < |lines| ==> Trim(lines[i]) != target
    ensures FindLine(lines[k := flipped], target, 0) == Some(k)
  {
    var after := lines[k := flipped];
    var found := FindLine(after, target, 0);
    assert found.Some? by {
      assert Trim(after[k]) == target;
    }
  }

  /** The line the toggle of `t` changes, and the marker it had. */
  lemma ToggleFound(content: string, t: Todo) returns (k: nat, prev: string)
    requires Toggle(content, t).Ok?
    ensures k < |Split(content, '\n')| && ToggleLineOf(Split(content, '\n')[k], t)
    ensures prev == (if t.done then Done else if Trim(Split(content, '\n')[k]) == Open + t.task then Open else InProgress)
    ensures Trim(Split(content, '\n')[k]) == prev + t.task
    ensures Toggle(content, t).value
         == Join(Split(content, '\n')[k := Retag(Split(content, '\n')[k], if t.done then Open else Done)], '\n')
  {
    var lines := Split(content, '\n');
    var a := FindLine(lines, (if t.done then Done else Open) + t.task, 0);
    var b := FindLine(lines, InProgress + t.task, 0);
    k := if a.Some? then a.value else b.value;
    prev := if a.Some? then (if t.done then Done else Open) else InProgress;
    assert t.done ==> a.Some?;
    assert Open + t.task != InProgress + t.task by {
      assert (Open + t.task)[3] != (InProgress + t.task)[3];
    }
  }
}

module TodoFindings {
  import opened Text
  import opened Todos

  /**
   * Toggling an open TODO whose line comes after the line of an open TODO
   * that extends its text (`- [ ] ab` before `- [ ] a`): the text
   * replacement of the source marks the earlier, longer task done and leaves
   * the TODO that was clicked open.
   */
  lemma ToggleAsWrittenMarksOtherTask(t: Todo, x: string)
    requires !t.done && x != [] && '$' !in t.task
    ensures ToggleAsWritten(Open + t.task + x + "\n" + Open + t.task, t)
         == Ok(Done + t.task + x + "\n" + Open + t.task)
  {
    var s := Open + t.task + x + "\n" + Open + t.task;
    var p, q := Open + t.task, Done + t.task;
    assert s[..|p|] == p;
    assert OccursAt(s, p, 0);
    assert IndexOf(s, p) == Some(0);
    assert '$' !in q;
    var u := ReplaceFirst(s, p, q);
    assert u == q + s[|p|..];
    assert s[|p|..] == x + "\n" + Open + t.task;
    assert u == Done + t.task + x + "\n" + Open + t.task;
    assert u[3] == 'x' != s[3];
    assert ToggleAsWritten(s, t) == Ok(u);
  }

  /** The intended toggle of the same TODO marks its own line and only that one. */
  lemma ToggleMarksOwnTask(t: Todo, x: string)
    requires !t.done && t.task != [] && !IsSpace(t.task[|t.task| - 1]) && '\n' !in t.task
    requires x != [] && !IsSpace(x[|x| - 1]) && '\n' !in x
    ensures Toggle(Open + t.task + x + "\n" + Open + t.task, t)
         == Ok(Open + t.task + x + "\n" + (Done + t.task))
  {
    var first, second := Open + t.task + x, Open + t.task;
    assert first + "\n" + second == Open + t.task + x + "\n" + Open + t.task;
    var lines := TwoLines(first, second);
    FindSecond(first, second);
    SecondLineMarked(first, t.task);
    ToggleOpenAt(first + "\n" + second, t, lines, 1);
  }

  /** Retagging the second of the lines `first` and the open `task` gives the file with `task` done. */
  lemma SecondLineMarked(first: string, task: string)
    requires task != [] && !IsSpace(task[|task| - 1])
    ensures Join([first, Open + task][1 := Retag(Open + task, Done)], '\n') == first + "\n" + (Done + task)
  {
    var marked := MarkedLine(task, Done);
    assert [first, Open + task][1 := marked] == [first, Done + task];
    JoinOfTwo(first, Done + task);
  }

  /** The toggle of an open TODO found on line `k` retags that line done. */
  lemma ToggleOpenAt(content: string, t: Todo, lines: seq<string>, k: nat)
    requires !t.done && Split(content, '\n') == lines
    requires FindLine(lines, Open + t.task, 0) == Some(k)
    ensures Toggle(content, t) == Ok(Join(lines[k := Retag(lines[k], Done)], '\n'))
  {
  }

  lemma TwoLines(first: string, second: string) returns (lines: seq<string>)
    requires '\n' !in first && '\n' !in second
    ensures lines == [first, second] && Split(first + "\n" + second, '\n') == lines
  {
    lines := [first, second];
    JoinOfTwo(first, second);
    SplitJoin(lines, '\n');
  }

  /** Among the unpadded lines `first` and `second`, where `first` is longer, `second` is found second. */
  lemma FindSecond(first: string, second: string)
    requires second != [] && !IsSpace(second[0]) && !IsSpace(second[|second| - 1])
    requires |first| > |second| && !IsSpace(first[0]) && !IsSpace(first[|first| - 1])
    ensures FindLine([first, second], second, 0) == Some(1)
  {
    var lines := [first, second];
    TrimOfUntrimmed(first);
    TrimOfUntrimmed(second);
    assert FindLine(lines, second, 2) == None;
    assert FindLine(lines, second, 1) == Some(1);
    assert Trim(lines[0]) != second;
  }

  lemma JoinOfTwo(a: string, b: string)
    ensures Join([a, b], '\n') == a + "\n" + b
  {
    assert [a, b][..1] == [a];
  }

  /** Retagging the unpadded open line of `task` swaps its marker. */
  lemma MarkedLine(task: string, marker: string) returns (r: string)
    requires |marker| == 6 && task != [] && !IsSpace(task[|task| - 1])
    ensures r == Retag(Open + task, marker) && r == marker + task
  {
    var line := Open + task;
    TrimOfUntrimmed(line);
    assert Lead(line) == "" && Trail(line) == "";
    assert line[6..] == task;
    r := Retag(line, marker);
    assert r == "" + marker + task + "";
  }

  /**
   * Toggling the open TODO whose task ends in `$$`: the replacement text of
   * the source expands `$$` to `$`, so the file then lists a done TODO with
   * one `$` fewer.
   */
  lemma ToggleAsWrittenRewritesDollars(t: Todo, a: string)
    requires !t.done && t.task == a + "$$" && '$' !in a
    ensures ToggleAsWritten(Open + t.task, t) == Ok(Done + a + "$")
  {
    var s := Open + t.task;
    assert s[..|s|] == s;
    assert OccursAt(s, s, 0);
    assert IndexOf(s, s) == Some(0);
    assert Done + t.task == (Done + a) + "$$";
    SubstitutionOfPlain(Done + a, "$$", s, 0, |s|);
    assert "$$"[2..] == "";
    assert Substitution("$$", s, 0, |s|) == "$";
    var u := ReplaceFirst(s, s, Done + t.task);
    assert s[..0] == [] && s[|s|..] == [];
    assert u == Done + a + "$";
    assert u[3] == 'x' != s[3];
  }

  /** The intended toggle of a one-line file keeps the task as it is. */
  lemma ToggleKeepsTask(t: Todo)
    requires !t.done && t.task != [] && !IsSpace(t.task[|t.task| - 1]) && '\n' !in t.task
    ensures Toggle(Open + t.task, t) == Ok(Done + t.task)
  {
    var s := Open + t.task;
    TrimOfUntrimmed(s);
    assert FindLine([s], s, 1) == None;
    assert FindLine([s], s, 0) == Some(0);
    assert '\n' !in s;
    assert Split(s, '\n') == [s];
    var marked := MarkedLine(t.task, Done);
    ToggleOpenAt(s, t, [s], 0);
    assert [s][0 := marked] == [marked];
    assert Join([marked], '\n') == marked;
  }
}
