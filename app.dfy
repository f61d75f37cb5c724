// The state VaultApp keeps between clicks: the TODO cache, the loaded memo
// file, pins, the notification centre, the AI chat history and the command
// palette. Each handler becomes a method over that state. What a handler reads
// from GitHub, the browser storage or the clock arrives as a parameter, and
// what it writes to GitHub comes back as a `Todos.Write` result. The DOM,
// toasts and the webhook POST are not modelled.

module App {
  import opened Text
  import Todos
  import Memos
  import Gemini
  import opened Palette

  datatype Pin = Pin(text: string, date: string)

  datatype Notification = Notification(title: string, detail: string, time: string)

  datatype Role = User | Model

  /** One entry of `_aiHistory`: `{role, parts: [{text}]}`. */
  datatype Turn = Turn(role: Role, text: string)

  const MaxNotifications: nat := 50
  const HistoryLimit: nat := 20
  const HistoryKept: nat := 16
  const NoAnswer: string := "応答を取得できませんでした"

  function Min(a: int, b: int): int { if a <= b then a else b }
  function Max(a: int, b: int): int { if a >= b then a else b }

  // ---------------------------------------------------------------------
  // Lists that grow at the front and are cut to a length
  // ---------------------------------------------------------------------

  /**
   * `list.unshift(x)` followed by `if (list.length > cap) list.length = cap`:
   * the new entry first, then the old entries in order, and never more than
   * `cap` of them; an old entry is lost only when the list was full.
   */
  function Capped<T>(x: T, list: seq<T>, cap: nat): (r: seq<T>)
    requires cap > 0
    ensures 0 < |r| <= cap && r[0] == x
    ensures |r| - 1 <= |list| && r[1..] == list[..|r| - 1]
    ensures |list| < cap ==> |r| == |list| + 1
    ensures |list| >= cap ==> |r| == cap
  {
    var all := [x] + list;
    if |all| > cap then all[..cap] else all
  }

  /**
   * `if (h.length > 20) h = h.slice(-16)`: a history over twenty turns is
   * cut to its last sixteen; a shorter one is kept whole.
   */
  function KeptHistory(h: seq<Turn>): (r: seq<Turn>)
    ensures |r| <= HistoryLimit
    ensures |r| <= |h| && r == h[|h| - |r|..]
    ensures |h| <= HistoryLimit ==> r == h
    ensures |h| > HistoryLimit ==> |r| == HistoryKept
  {
    if |h| > HistoryLimit then h[|h| - HistoryKept..] else h
  }

  /** Whether the chat request came back with `res.ok`. */
  predicate Answered(answer: Option<Gemini.Response>)
  {
    answer.Some? && Gemini.IsOk(answer.value.status)
  }

  /** The reply text, or "応答を取得できませんでした" when the answer has none. */
  function ReplyText(res: Gemini.Response): (s: string)
    ensures s != ""
    ensures res.text.Some? && res.text.value != "" ==> s == res.text.value
  {
    if res.text.None? || res.text.value == "" then NoAnswer else res.text.value
  }

  /** After a question and its answer are added and the history is cut, the two of them close it. */
  lemma ExchangeKept(h: seq<Turn>, question: Turn, answer: Turn)
    ensures var k := KeptHistory(h + [question, answer]);
      |k| >= 2 && k[|k| - 2..] == [question, answer]
  {
    var all := h + [question, answer];
    var k := KeptHistory(all);
    assert all[|all| - 2..] == [question, answer];
    assert k[|k| - 2..] == all[|all| - 2..];
  }

  // ---------------------------------------------------------------------
  // Notifications and the webhook label
  // ---------------------------------------------------------------------

  /** ` (name)` after a webhook action for a signed-in user. */
  function UserLabel(user: Option<string>): (s: string)
    ensures user.None? <==> s == ""
  {
    match user
    case None => ""
    case Some(name) => " (" + name + ")"
  }

  // ---------------------------------------------------------------------
  // JavaScript's Array.prototype.splice(i, 1)
  // ---------------------------------------------------------------------

  /** The index `splice(i, 1)` starts at: a negative `i` counts from the end, and the result is clamped to the list. */
  function SpliceStart(i: int, len: nat): (k: nat)
    ensures k <= len
    ensures 0 <= i <= len ==> k == i
    ensures i > len ==> k == len
    ensures i < 0 && len + i >= 0 ==> k == len + i
    ensures len + i < 0 ==> k == 0
  {
    if i < 0 then (if len + i < 0 then 0 else len + i)
    else if i > len then len
    else i
  }

  /** The highlighted index after a re-render: kept, but pulled down to the last entry (or 0 when none). */
  function Clamp(idx: int, count: nat): (r: int)
    ensures r <= idx && r <= Max(count - 1, 0)
    ensures r == idx || r == Max(count - 1, 0)
  {
    Min(idx, Max(count - 1, 0))
  }

  // ---------------------------------------------------------------------
  // The application object
  // ---------------------------------------------------------------------

  class VaultApp {
    /** Whether `this.api` exists, i.e. a GitHub token is configured. */
    var connected: bool
    var currentUser: Option<string>
    var todosCache: seq<Todos.Todo>
    /** `_memosRaw` and whether `_memoLines` was set by a load. */
    var memosRaw: string
    var memosLoaded: bool
    /** `vault_pins` in the browser storage. */
    var pins: seq<Pin>
    /** `vault_notifs` in the browser storage. */
    var notifications: seq<Notification>
    var aiHistory: seq<Turn>
    /** The entries `renderCmdResults` lists from. */
    const palette: seq<Command>
    var cmdItems: seq<Command>
    var cmdIdx: int

    /** What every handler keeps: a bounded notification list and a highlighted index within the palette. */
    predicate Valid()
      reads this
    {
      |notifications| <= MaxNotifications && -1 <= cmdIdx <= Max(|cmdItems| - 1, 0)
    }

    constructor (connected: bool, user: Option<string>, storedPins: seq<Pin>, storedNotifications: seq<Notification>)
      requires |storedNotifications| <= MaxNotifications
      ensures Valid()
      ensures this.connected == connected && currentUser == user
      ensures pins == storedPins && notifications == storedNotifications
      ensures todosCache == [] && aiHistory == [] && !memosLoaded && memosRaw == ""
      ensures cmdItems == [] && cmdIdx == 0 && palette == Pages
    {
      this.connected := connected;
      currentUser := user;
      todosCache := [];
      memosRaw := "";
      memosLoaded := false;
      pins := storedPins;
      notifications := storedNotifications;
      aiHistory := [];
      cmdItems := [];
      cmdIdx := 0;
      palette := Pages;
    }

    // ---- notification centre ------------------------------------------

    /** `addNotification(title, detail)` at time `now`. */
    method AddNotification(title: string, detail: string, now: string)
      requires Valid()
      modifies this`notifications
      ensures Valid()
      ensures notifications == Capped(Notification(title, detail, now), old(notifications), MaxNotifications)
    {
      var list := [Notification(title, detail, now)] + notifications;
      if |list| > MaxNotifications {
        list := list[..MaxNotifications];
      }
      notifications := list;
    }

    /** The logging half of `notifyWebhook(action, detail)`: the user's name is appended to the title. */
    method Notify(action: string, detail: string, now: string)
      requires Valid()
      modifies this`notifications
      ensures Valid()
      ensures notifications == Capped(Notification(action + UserLabel(currentUser), detail, now), old(notifications), MaxNotifications)
    {
      AddNotification(action + UserLabel(currentUser), detail, now);
    }

    // ---- pins ---------------------------------------------------------

    /** `addPin()`: a trimmed, non-empty input becomes the first pin, stamped with `date`. */
    method AddPin(input: string, date: string)
      modifies this`pins
      ensures Trim(input) == "" ==> pins == old(pins)
      ensures Trim(input) != "" ==> pins == [Pin(Trim(input), date)] + old(pins)
    {
      var text := Trim(input);
      if text == "" {
        return;
      }
      pins := [Pin(text, date)] + pins;
    }

    /** `removePin(i)`, which is `pins.splice(i, 1)`. */
    method RemovePin(i: int)
      modifies this`pins
      ensures var k := SpliceStart(i, |old(pins)|);
        if k < |old(pins)| then pins == old(pins)[..k] + old(pins)[k + 1..] else pins == old(pins)
      ensures 0 <= i < |old(pins)| ==> pins == old(pins)[..i] + old(pins)[i + 1..]
      ensures i >= |old(pins)| ==> pins == old(pins)
      ensures |old(pins)| > 0 ==> |pins| == |old(pins)| - 1 || i >= |old(pins)|
    {
      var k := SpliceStart(i, |pins|);
      if k < |pins| {
        pins := pins[..k] + pins[k + 1..];
      }
    }

    // ---- TODOs --------------------------------------------------------

    /**
     * `loadTodos()`: the cache becomes what `getTodos` listed, when a client
     * exists and the listing succeeded (`None` when `getTodos` threw).
     */
    method LoadTodos(listed: Option<seq<Todos.Todo>>)
      modifies this`todosCache
      ensures connected && listed.Some? ==> todosCache == listed.value
      ensures !(connected && listed.Some?) ==> todosCache == old(todosCache)
    {
      if connected && listed.Some? {
        todosCache := listed.value;
      }
    }

    /**
     * `addTodo()`: the write `Todos.AddTodo` prepares; once it is written,
     * the notification centre logs "📋 TODO追加" with the task.
     */
    method AddTodo(input: string, projInput: string, existing: Option<string>, now: string)
      returns (r: Todos.Result<Todos.Write>)
      requires Valid()
      modifies this`notifications
      ensures Valid()
      ensures r == Todos.AddTodo(input, projInput, connected, existing, currentUser)
      ensures r.Err? ==> notifications == old(notifications)
      ensures r.Ok? ==> (notifications ==
        Capped(Notification("\U{1F4CB} TODO追加" + UserLabel(currentUser), Trim(input), now), old(notifications), MaxNotifications))
    {
      r := Todos.AddTodo(input, projInput, connected, existing, currentUser);
      if r.Ok? {
        Notify("\U{1F4CB} TODO追加", Trim(input), now);
      }
    }

    /** The commit message `toggleTodo` writes with. */
    function ToggleMessage(t: Todos.Todo): (m: string)
      reads this
      ensures StartsWith(m, Todos.UserTag(currentUser))
    {
      Todos.UserTag(currentUser) + (if t.done then "\U{1F504} Reopen: " else "✅ Done: ") + Prefix(t.task, 30)
    }

    /**
     * `toggleTodo(idx)`: `content` is the fresh read of the TODO's file
     * (`None` when the read fails or there is no client). A TODO that is
     * missing from the cache or from the file changes nothing; otherwise the
     * file gets the flipped marker and the notification centre logs it.
     */
    method ToggleTodo(idx: int, content: Option<string>, now: string) returns (w: Option<Todos.Write>)
      requires Valid()
      modifies this`notifications
      ensures Valid()
      ensures w.Some? <==> (0 <= idx < |todosCache| && connected && content.Some?
                            && Todos.Toggle(content.value, todosCache[idx]).Ok?)
      ensures w.None? ==> notifications == old(notifications)
      ensures w.Some? ==> var t := todosCache[idx];
        && w.value == Todos.Write(t.file, Todos.Toggle(content.value, t).value, ToggleMessage(t))
        && notifications == Capped(Notification((if t.done then "\U{1F504} TODO再開" else "✅ TODO完了")
                                                + UserLabel(currentUser), t.task, now),
                                   old(notifications), MaxNotifications)
    {
      w := None;
      if idx < 0 || idx >= |todosCache| || !connected || content.None? {
        return;
      }
      var t := todosCache[idx];
      var updated := Todos.Toggle(content.value, t);
      if updated.Err? {
        return;
      }
      w := Some(Todos.Write(t.file, updated.value, ToggleMessage(t)));
      Notify(if t.done then "\U{1F504} TODO再開" else "✅ TODO完了", t.task, now);
    }

    /**
     * `deleteTodo(idx)`: every line that is this TODO goes; the commit
     * message carries no user tag.
     */
    method DeleteTodo(idx: int, content: Option<string>, now: string) returns (w: Option<Todos.Write>)
      requires Valid()
      modifies this`notifications
      ensures Valid()
      ensures w.Some? <==> (0 <= idx < |todosCache| && connected && content.Some?
                            && Todos.DeleteTodo(content.value, todosCache[idx]).Ok?)
      ensures w.None? ==> notifications == old(notifications)
      ensures w.Some? ==> var t := todosCache[idx];
        && w.value == Todos.Write(t.file, Todos.DeleteTodo(content.value, t).value,
                                  "\U{1F5D1} Delete TODO: " + Prefix(t.task, 30))
        && notifications == Capped(Notification("\U{1F5D1} TODO削除" + UserLabel(currentUser), t.task, now),
                                   old(notifications), MaxNotifications)
    {
      w := None;
      if idx < 0 || idx >= |todosCache| || !connected || content.None? {
        return;
      }
      var t := todosCache[idx];
      var updated := Todos.DeleteTodo(content.value, t);
      if updated.Err? {
        return;
      }
      w := Some(Todos.Write(t.file, updated.value, "\U{1F5D1} Delete TODO: " + Prefix(t.task, 30)));
      Notify("\U{1F5D1} TODO削除", t.task, now);
    }

    // ---- memos --------------------------------------------------------

    /** `loadMemos()`: a successful read of `Memos.md` is kept for `deleteMemo`. */
    method LoadMemos(content: Option<string>) returns (shown: seq<string>)
      modifies this`memosRaw, this`memosLoaded
      ensures connected && content.Some? ==> memosRaw == content.value && memosLoaded && shown == Memos.MemoLines(content.value)
      ensures !(connected && content.Some?) ==> memosRaw == old(memosRaw) && memosLoaded == old(memosLoaded) && shown == []
    {
      shown := [];
      if !connected || content.None? {
        return;
      }
      memosRaw := content.value;
      memosLoaded := true;
      shown := Memos.MemoLines(content.value);
    }

    /** `addMemo()`: the write `Memos.AddMemo` prepares, logged as "💡 メモ追加". */
    method AddMemo(input: string, existing: Option<string>, clock: Memos.Clock, now: string)
      returns (r: Memos.MemoResult)
      requires Valid()
      modifies this`notifications
      ensures Valid()
      ensures r == Memos.AddMemo(input, connected, existing, clock)
      ensures r.Err? ==> notifications == old(notifications)
      ensures r.Ok? ==> (notifications ==
        Capped(Notification("\U{1F4A1} メモ追加" + UserLabel(currentUser), Trim(input), now), old(notifications), MaxNotifications))
    {
      r := Memos.AddMemo(input, connected, existing, clock);
      if r.Ok? {
        Notify("\U{1F4A1} メモ追加", Trim(input), now);
      }
    }

    /**
     * `deleteMemo(idx)`, removing the memo's own line: the memo file loses
     * exactly the `idx`-th memo and keeps every other one in order.
     */
    method DeleteMemo(idx: int) returns (w: Option<Todos.Write>)
      ensures w == Memos.DeleteMemoLine(connected, memosRaw, memosLoaded, idx)
      ensures w.Some? <==> connected && memosLoaded && 0 <= idx < |Memos.MemoTexts(memosRaw)|
      ensures w.Some? ==> var memos := Memos.MemoTexts(memosRaw);
        Memos.MemoTexts(w.value.content) == memos[..idx] + memos[idx + 1..]
    {
      w := Memos.DeleteMemoLine(connected, memosRaw, memosLoaded, idx);
      if w.Some? {
        Memos.DeleteMemoLineRemoves(connected, memosRaw, memosLoaded, idx);
      }
    }

    // ---- AI chat ------------------------------------------------------

    /**
     * `sendAiChat()`: `key` is the stored Gemini key and `answer` what the
     * request returned (`None` when `fetch` threw). The user's turn is added
     * before the request and stays even when the request fails; a reply is
     * added after it and the history is then cut back.
     */
    method SendAiChat(input: string, key: string, answer: Option<Gemini.Response>) returns (reply: Option<string>)
      modifies this`aiHistory
      ensures Trim(input) == "" || key == "" ==> aiHistory == old(aiHistory) && reply.None?
      ensures Trim(input) != "" && key != "" && !Answered(answer) ==>
        reply.None? && aiHistory == old(aiHistory) + [Turn(User, Trim(input))]
      ensures Trim(input) != "" && key != "" && Answered(answer) ==>
        reply == Some(ReplyText(answer.value))
        && aiHistory == KeptHistory(old(aiHistory) + [Turn(User, Trim(input)), Turn(Model, reply.value)])
      ensures reply.Some? ==> (|aiHistory| <= HistoryLimit
        && aiHistory[|aiHistory| - 2..] == [Turn(User, Trim(input)), Turn(Model, reply.value)])
    {
      reply := None;
      var text := Trim(input);
      if text == "" || key == "" {
        return;
      }
      var before := aiHistory;
      var asked := before + [Turn(User, text)];
      aiHistory := asked;
      if !Answered(answer) {
        return;
      }
      var said := ReplyText(answer.value);
      var exchange := before + [Turn(User, text), Turn(Model, said)];
      ExchangeKept(before, Turn(User, text), Turn(Model, said));
      aiHistory := KeptHistory(exchange);
      reply := Some(said);
    }

    /** `clearAiChat()` */
    method ClearAiChat()
      modifies this`aiHistory
      ensures aiHistory == []
    {
      aiHistory := [];
    }

    // ---- command palette ----------------------------------------------

    /** `renderCmdResults(query)`: the listed entries, and the highlight pulled back onto them. */
    method RenderCmdResults(query: string)
      requires Valid()
      modifies this`cmdItems, this`cmdIdx
      ensures Valid()
      ensures cmdItems == Matches(palette, query)
      ensures cmdIdx == Clamp(old(cmdIdx), |cmdItems|)
    {
      cmdItems := Matches(palette, query);
      cmdIdx := Clamp(cmdIdx, |cmdItems|);
    }

    /** `openCmd()`, and the palette input's `input` handler: the highlight goes to the first entry. */
    method OpenCmd(query: string)
      requires Valid()
      modifies this`cmdItems, this`cmdIdx
      ensures Valid()
      ensures cmdItems == Matches(palette, query) && cmdIdx == 0
    {
      cmdIdx := 0;
      RenderCmdResults(query);
    }

    /** `execCmdItem(i)` for a click on the `i`-th entry. */
    method ExecCmdItem(i: int) returns (e: Option<Effect>)
      ensures e == Choose(cmdItems, i)
    {
      e := Choose(cmdItems, i);
    }

    /**
     * `handleCmdKey(e)` with the palette input holding `query`: the arrows
     * move the highlight and re-render, Enter runs the highlighted entry,
     * anything else changes no state.
     */
    method HandleCmdKey(key: string, query: string) returns (e: Option<Effect>)
      requires Valid()
      modifies this`cmdItems, this`cmdIdx
      ensures Valid()
      ensures key == "ArrowDown" ==>
        cmdItems == Matches(palette, query) && cmdIdx == Clamp(Min(old(cmdIdx) + 1, |old(cmdItems)| - 1), |cmdItems|) && e.None?
      ensures key == "ArrowUp" ==>
        cmdItems == Matches(palette, query) && cmdIdx == Clamp(Max(old(cmdIdx) - 1, 0), |cmdItems|) && e.None?
      ensures key != "ArrowDown" && key != "ArrowUp" ==> cmdItems == old(cmdItems) && cmdIdx == old(cmdIdx)
      ensures key == "Enter" ==> e == Choose(cmdItems, cmdIdx)
      ensures key != "Enter" ==> e.None?
    {
      e := None;
      if key == "ArrowDown" {
        cmdIdx := Min(cmdIdx + 1, |cmdItems| - 1);
        RenderCmdResults(query);
      } else if key == "ArrowUp" {
        cmdIdx := Max(cmdIdx - 1, 0);
        RenderCmdResults(query);
      } else if key == "Enter" {
        e := Choose(cmdItems, cmdIdx);
      }
    }
  }
}
