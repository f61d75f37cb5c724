// The command palette's entries and its filter: which entries `renderCmdResults`
// lists for a query, and what choosing one does.

module Palette {
  import opened Text

  /** One entry of the command palette. */
  datatype Command = Command(name: string, action: string)

  /** What choosing a palette entry does. */
  datatype Effect = ClearCache | ToggleNotifications | SyncNow | Navigate(page: string)

  /** The fifteen palette entries, in the order they are listed. */
  const Pages: seq<Command> := [
    Command("ダッシュボード", "dashboard"),
    Command("TODO", "todos"),
    Command("プロジェクト", "projects"),
    Command("ファイル", "files"),
    Command("検索", "search"),
    Command("AI アシスタント", "ai"),
    Command("ピン留め", "pins"),
    Command("タイムライン", "timeline"),
    Command("ヘルスチェック", "health"),
    Command("サービスハブ", "services"),
    Command("Bot管理", "bot"),
    Command("設定", "settings"),
    Command("キャッシュクリア", "clearCache"),
    Command("通知センター", "notifications"),
    Command("Sync Now", "syncNow")
  ]

  /** `String.prototype.toLowerCase` on the letters A to Z; every other character is kept. */
  function LowerChar(c: char): (d: char)
    ensures 'A' <= c <= 'Z' ==> 'a' <= d <= 'z'
    ensures !('A' <= c <= 'Z') ==> d == c
  {
    if 'A' <= c <= 'Z' then (c as int + 32) as char else c
  }

  function Lower(s: string): (r: string)
    ensures |r| == |s|
    ensures forall i :: 0 <= i < |s| ==> r[i] == LowerChar(s[i])
  {
    seq(|s|, i requires 0 <= i < |s| => LowerChar(s[i]))
  }

  /** `s.includes(q)` */
  predicate Includes(s: string, q: string)
  {
    IndexOf(s, q).Some?
  }

  /** Whether the lower-cased query `q` picks the entry: its lower-cased label or its action contains `q`. */
  predicate Hit(q: string, p: Command)
  {
    Includes(Lower(p.name), q) || Includes(p.action, q)
  }

  /** The entries listed for `query`: all of them for an empty query, else those hit by its lower-cased form, in order. */
  function Matches(pages: seq<Command>, query: string): seq<Command>
  {
    var q := Lower(query);
    if q == [] then pages else Filter(pages, (p: Command) => Hit(q, p))
  }

  /** An entry is listed exactly when the query is empty or hits it. */
  lemma MatchesMembers(query: string, p: Command)
    ensures query == "" ==> Matches(Pages, query) == Pages
    ensures p in Matches(Pages, query) <==> p in Pages && (query == "" || Hit(Lower(query), p))
  {
  }

  /** Every entry is found by typing its own label. */
  lemma {:induction false} LabelFindsPage(p: Command)
    requires p in Pages
    ensures p in Matches(Pages, p.name)
  {
    assert OccursAt(Lower(p.name), Lower(p.name), 0);
    MatchesMembers(p.name, p);
  }

  /** `execCmdItem(i)`: nothing for a missing entry, otherwise what the entry's action does. */
  function Choose(items: seq<Command>, i: int): (e: Option<Effect>)
    ensures e.Some? <==> 0 <= i < |items|
    ensures e.Some? && items[i].action !in {"clearCache", "notifications", "syncNow"} ==> e.value == Navigate(items[i].action)
    ensures e.Some? && items[i].action == "clearCache" ==> e.value == ClearCache
    ensures e.Some? && items[i].action == "notifications" ==> e.value == ToggleNotifications
    ensures e.Some? && items[i].action == "syncNow" ==> e.value == SyncNow
  {
    if i < 0 || i >= |items| then None
    else
      var a := items[i].action;
      if a == "clearCache" then Some(ClearCache)
      else if a == "notifications" then Some(ToggleNotifications)
      else if a == "syncNow" then Some(SyncNow)
      else Some(Navigate(a))
  }

}
