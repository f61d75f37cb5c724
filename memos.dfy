// The memo pad: the text logic of `loadMemos`, `addMemo` and `deleteMemo`
// over the file `Memos.md`, one memo per line of the form
// `- **YYYY-MM-DD HH:MM** — text`.

module Memos {
  import opened Text
  import Todos

  const MemoFile: string := "Memos.md"

  /** The lines of the file `addMemo` starts from when `Memos.md` cannot be read. */
  const HeaderLines: seq<string> := ["---", "tags:", "  - type/ボス", "---", "", "# \U{1F4A1} メモ帳", ""]

  const MemoHeader: string := Join(HeaderLines, '\n')

  /** What follows the time stamp of a memo line: `** — ` with an em dash. */
  const Separator: string := "** — "

  // ---------------------------------------------------------------- listing

  /** `l.trim().startsWith('- ')`: the lines `loadMemos` lists. */
  predicate IsMemoLine(line: string)
  {
    StartsWith(Trim(line), "- ")
  }

  /** The memo lines of a file, in file order (`_memoLines`). */
  function MemoLines(content: string): seq<string>
  {
    Filter(Split(content, '\n'), IsMemoLine)
  }

  // ---------------------------------------------------------------- display

  predicate NoTerminator(s: string)
  {
    forall i :: 0 <= i < |s| ==> !IsLineTerminator(s[i])
  }

  /**
   * With the time stamp `line[4..4 + j]`, the rest of `/^- \*\*(.+?)\*\* — (.+)$/`
   * matches: the separator follows and a non-empty text without line
   * terminators runs to the end of the line.
   */
  predicate MatchesAt(line: string, j: nat)
  {
    OccursAt(line, Separator, 4 + j) && 4 + j + |Separator| < |line|
    && NoTerminator(line[4 + j + |Separator|..])
  }

  /** A time stamp of length `j` is one `(.+?)` can take: no line terminator in it. */
  predicate StampFits(line: string, j: nat)
  {
    4 + j <= |line| && NoTerminator(line[4..4 + j])
  }

  /** The lazy group tries the lengths `k`, `k + 1`, ... in turn. */
  function MatchFrom(line: string, k: nat): (r: Option<(string, string)>)
    requires StartsWith(line, "- **") && k >= 1 && 4 + k - 1 <= |line|
    requires NoTerminator(line[4..4 + k - 1])
    ensures r.Some? ==> (k <= |r.value.0| && StampFits(line, |r.value.0|) && MatchesAt(line, |r.value.0|)
      && line == "- **" + r.value.0 + Separator + r.value.1)
    ensures r.Some? ==> forall j :: k <= j < |r.value.0| ==> !MatchesAt(line, j)
    ensures r.None? ==> forall j :: k <= j && StampFits(line, j) ==> !MatchesAt(line, j)
    decreases |line| - k
  {
    if 4 + k > |line| then None
    else if IsLineTerminator(line[4 + k - 1]) then
      TerminatorEndsStamps(line, k);
      None
    else
      StampExtends(line, k);
      if MatchesAt(line, k) then
        MatchPieces(line, k);
        Some((line[4..4 + k], line[4 + k + |Separator|..]))
      else MatchFrom(line, k + 1)
  }

  /** No time stamp runs across a line terminator. */
  lemma TerminatorEndsStamps(line: string, k: nat)
    requires k >= 1 && 4 + k <= |line| && IsLineTerminator(line[4 + k - 1])
    ensures forall j :: k <= j ==> !StampFits(line, j)
  {
  }

  lemma StampExtends(line: string, k: nat)
    requires k >= 1 && 4 + k <= |line| && NoTerminator(line[4..4 + k - 1]) && !IsLineTerminator(line[4 + k - 1])
    ensures StampFits(line, k)
  {
    assert line[4..4 + k] == line[4..4 + k - 1] + [line[4 + k - 1]];
  }

  lemma MatchPieces(line: string, k: nat)
    requires StartsWith(line, "- **") && MatchesAt(line, k)
    ensures line == "- **" + line[4..4 + k] + Separator + line[4 + k + |Separator|..]
  {
    assert line == line[..4] + line[4..4 + k] + line[4 + k..4 + k + |Separator|] + line[4 + k + |Separator|..];
  }

  /**
   * `line.match(/^- \*\*(.+?)\*\* — (.+)$/)`: the time stamp (group 1) and
   * the text (group 2) of a memo line, the time stamp as short as possible.
   */
  function MatchMemo(line: string): (r: Option<(string, string)>)
    ensures r.Some? <==> StartsWith(line, "- **") && exists j :: 1 <= j && StampFits(line, j) && MatchesAt(line, j)
    ensures r.Some? ==> var (ts, text) := r.value;
      line == "- **" + ts + Separator + text && ts != [] && NoTerminator(ts) && text != [] && NoTerminator(text)
      && forall j :: 1 <= j < |ts| ==> !MatchesAt(line, j)
  {
    if StartsWith(line, "- **") then
      var r := MatchFrom(line, 1);
      if r.Some? then
        var (ts, text) := r.value;
        assert line[4..4 + |ts|] == ts && line[4 + |ts| + |Separator|..] == text;
        r
      else r
    else None
  }

  /** The time stamp and the text a memo card shows. */
  function Display(line: string): (r: (string, string))
  {
    match MatchMemo(line)
    case Some(m) => m
    case None => ("", if StartsWith(line, "- ") then line[2..] else line)
  }

  // ------------------------------------------------------------- time stamp

  /** The local calendar fields of `new Date()`; `month` is 0-based, as `getMonth()` returns it. */
  datatype Clock = Clock(year: nat, month: nat, date: nat, hours: nat, minutes: nat)

  /** `s.padStart(2, '0')` */
  function PadStart2(s: string): string
  {
    if |s| >= 2 then s else seq(2 - |s|, _ => '0') + s
  }

  /** `YYYY-MM-DD HH:MM` as `addMemo` builds it. */
  function Timestamp(c: Clock): string
  {
    StampOf(NatToString(c.year), PadStart2(NatToString(c.month + 1)), PadStart2(NatToString(c.date)),
            PadStart2(NatToString(c.hours)), PadStart2(NatToString(c.minutes)))
  }

  function StampOf(y: string, mo: string, d: string, h: string, mi: string): string
  {
    y + "-" + mo + "-" + d + " " + h + ":" + mi
  }

  predicate Digits(s: string)
  {
    forall i :: 0 <= i < |s| ==> '0' <= s[i] <= '9'
  }

  /** A number below 100, padded, is two digits that read back as the number. */
  lemma PadStart2OfNat(n: nat)
    requires n < 100
    ensures var p := PadStart2(NatToString(n)); |p| == 2 && Digits(p) && DigitsValue(p) == n
  {
    var p := PadStart2(NatToString(n));
    if n < 10 {
      assert p == "0" + [DigitChar(n)];
      assert p[..1] == "0";
      assert DigitsValue("0") == 0 by { assert "0"[..0] == []; }
    } else {
      assert NatToString(n) == NatToString(n / 10) + [DigitChar(n % 10)];
      NatToStringValue(n);
    }
  }

  /** A year of four digits is written with four digits. */
  lemma FourDigitYear(y: nat)
    requires 1000 <= y <= 9999
    ensures |NatToString(y)| == 4
  {
    assert |NatToString(y / 10 / 10 / 10)| == 1;
    assert |NatToString(y / 10 / 10)| == 2;
    assert |NatToString(y / 10)| == 3;
  }

  /** The fields of a `YYYY-MM-DD HH:MM` time stamp: year, month from 1, date, hours, minutes. */
  function ParseTimestamp(ts: string): Option<(nat, nat, nat, nat, nat)>
  {
    if |ts| == 16 && ts[4] == '-' && ts[7] == '-' && ts[10] == ' ' && ts[13] == ':'
      && Digits(ts[..4]) && Digits(ts[5..7]) && Digits(ts[8..10]) && Digits(ts[11..13]) && Digits(ts[14..])
    then Some((DigitsValue(ts[..4]), DigitsValue(ts[5..7]), DigitsValue(ts[8..10]),
               DigitsValue(ts[11..13]), DigitsValue(ts[14..])))
    else None
  }

  /** Where the five fields sit in `y-mo-d h:mi`, and what they read as. */
  lemma StampParses(y: string, mo: string, d: string, h: string, mi: string)
    requires |y| == 4 && |mo| == 2 && |d| == 2 && |h| == 2 && |mi| == 2
    requires Digits(y) && Digits(mo) && Digits(d) && Digits(h) && Digits(mi)
    ensures ParseTimestamp(StampOf(y, mo, d, h, mi))
      == Some((DigitsValue(y), DigitsValue(mo), DigitsValue(d), DigitsValue(h), DigitsValue(mi)))
  {
    var ts := StampOf(y, mo, d, h, mi);
    assert ts[..4] == y by { Piece([], y, ts[4..]); }
    assert ts[5..7] == mo by { Piece(ts[..5], mo, ts[7..]); }
    assert ts[8..10] == d by { Piece(ts[..8], d, ts[10..]); }
    assert ts[11..13] == h by { Piece(ts[..11], h, ts[13..]); }
    assert ts[14..] == mi by { Piece(ts[..14], mi, []); }
  }

  lemma Piece(a: string, b: string, c: string)
    ensures (a + b + c)[|a|..|a| + |b|] == b
  {
  }

  /** A time stamp reads back as the clock's fields, the month counted from 1. */
  lemma TimestampFields(c: Clock)
    requires 1000 <= c.year <= 9999 && c.month < 12 && 1 <= c.date <= 31 && c.hours < 24 && c.minutes < 60
    ensures ParseTimestamp(Timestamp(c)) == Some((c.year, c.month + 1, c.date, c.hours, c.minutes))
  {
    FourDigitYear(c.year);
    NatToStringValue(c.year);
    PadStart2OfNat(c.month + 1);
    PadStart2OfNat(c.date);
    PadStart2OfNat(c.hours);
    PadStart2OfNat(c.minutes);
    var y := NatToString(c.year);
    var mo, d := PadStart2(NatToString(c.month + 1)), PadStart2(NatToString(c.date));
    var h, mi := PadStart2(NatToString(c.hours)), PadStart2(NatToString(c.minutes));
    StampParses(y, mo, d, h, mi);
  }

  /** Only digits, `-`, a space and `:`. */
  predicate StampChars(s: string)
  {
    forall i :: 0 <= i < |s| ==> '0' <= s[i] <= '9' || s[i] == '-' || s[i] == ' ' || s[i] == ':'
  }

  lemma StampCharsAppend(a: string, b: string)
    requires StampChars(a) && StampChars(b)
    ensures StampChars(a + b)
  {
    forall i | 0 <= i < |a + b|
      ensures '0' <= (a + b)[i] <= '9' || (a + b)[i] == '-' || (a + b)[i] == ' ' || (a + b)[i] == ':'
    {
      if i < |a| { assert (a + b)[i] == a[i]; } else { assert (a + b)[i] == b[i - |a|]; }
    }
  }

  lemma PaddedDigits(n: nat)
    ensures StampChars(PadStart2(NatToString(n)))
  {
    var s := NatToString(n);
    if |s| < 2 {
      var z := seq(2 - |s|, _ => '0');
      assert StampChars(z);
      StampCharsAppend(z, s);
    }
  }

  /** Any time stamp is non-empty and holds neither `*` nor a line terminator. */
  lemma TimestampPlain(c: Clock)
    ensures var ts := Timestamp(c); ts != [] && '*' !in ts && NoTerminator(ts)
  {
    PaddedDigits(c.month + 1);
    PaddedDigits(c.date);
    PaddedDigits(c.hours);
    PaddedDigits(c.minutes);
    var ts := NatToString(c.year);
    StampCharsAppend(ts, "-");
    ts := ts + "-";
    StampCharsAppend(ts, PadStart2(NatToString(c.month + 1)));
    ts := ts + PadStart2(NatToString(c.month + 1));
    StampCharsAppend(ts, "-");
    ts := ts + "-";
    StampCharsAppend(ts, PadStart2(NatToString(c.date)));
    ts := ts + PadStart2(NatToString(c.date));
    StampCharsAppend(ts, " ");
    ts := ts + " ";
    StampCharsAppend(ts, PadStart2(NatToString(c.hours)));
    ts := ts + PadStart2(NatToString(c.hours));
    StampCharsAppend(ts, ":");
    ts := ts + ":";
    StampCharsAppend(ts, PadStart2(NatToString(c.minutes)));
    ts := ts + PadStart2(NatToString(c.minutes));
    assert ts == Timestamp(c);
  }

  /** `'- **' + ts + '** — ' + text` */
  function MemoLine(ts: string, text: string): string
  {
    "- **" + ts + Separator + text
  }

  lemma {:induction false} MatchFromMemoLine(ts: string, text: string, k: nat)
    requires 1 <= k <= |ts| && '*' !in ts && NoTerminator(ts) && text != [] && NoTerminator(text)
    ensures var line := MemoLine(ts, text);
      StartsWith(line, "- **") && 4 + k - 1 <= |line| && NoTerminator(line[4..4 + k - 1])
      && MatchFrom(line, k) == Some((ts, text))
    decreases |ts| - k
  {
    var line := MemoLine(ts, text);
    assert line[..4] == "- **" && line[4..4 + |ts|] == ts;
    assert line[4 + |ts|..] == Separator + text;
    assert line[4..4 + k - 1] == ts[..k - 1];
    assert line[4 + k - 1] == ts[k - 1];
    if k < |ts| {
      assert line[4 + k] == ts[k];
      assert !OccursAt(line, Separator, 4 + k) by {
        assert ts[k] != '*';
      }
      MatchFromMemoLine(ts, text, k + 1);
    } else {
      assert line[4 + k..4 + k + |Separator|] == Separator;
      assert line[4 + k + |Separator|..] == text;
    }
  }

  /** A memo line `addMemo` writes is read back as its time stamp and text. */
  lemma DisplayMemoLine(ts: string, text: string)
    requires ts != [] && '*' !in ts && NoTerminator(ts) && text != [] && NoTerminator(text)
    ensures MatchMemo(MemoLine(ts, text)) == Some((ts, text))
    ensures Display(MemoLine(ts, text)) == (ts, text)
  {
    MatchFromMemoLine(ts, text, 1);
  }

  // -------------------------------------------------------------------- add

  datatype MemoError = EmptyMemo | NotConnected

  datatype MemoResult = Ok(write: Todos.Write) | Err(error: MemoError)

  /**
   * `addMemo`: the memo text is the trimmed input; the new line is appended
   * to the file, or to a fresh header when the file cannot be read
   * (`existing == None`).
   */
  function AddMemo(input: string, connected: bool, existing: Option<string>, now: Clock): (r: MemoResult)
    ensures r == Err(EmptyMemo) <==> Trim(input) == ""
    ensures r == Err(NotConnected) <==> Trim(input) != "" && !connected
    ensures r.Ok? ==> r.write.path == MemoFile && r.write.message == "Bot: memo - " + Prefix(Trim(input), 30)
  {
    var text := Trim(input);
    if text == "" then Err(EmptyMemo)
    else if !connected then Err(NotConnected)
    else
      Ok(Todos.Write(MemoFile, BaseOf(existing) + "\n" + MemoLine(Timestamp(now), text), "Bot: memo - " + Prefix(text, 30)))
  }

  /** The file `addMemo` starts from. */
  function BaseOf(existing: Option<string>): string
  {
    match existing
    case Some(c) => c
    case None => MemoHeader
  }

  lemma AddMemoContent(input: string, connected: bool, existing: Option<string>, now: Clock)
    requires AddMemo(input, connected, existing, now).Ok?
    ensures AddMemo(input, connected, existing, now).write.content
      == BaseOf(existing) + "\n" + MemoLine(Timestamp(now), Trim(input))
  {
  }

  /** The trimmed text of a line without terminators has none either. */
  lemma TrimNoTerminator(s: string)
    requires NoTerminator(s)
    ensures NoTerminator(Trim(s))
  {
    var i, j := TrimMargins(s);
    assert forall k :: 0 <= k < j - i ==> Trim(s)[k] == s[i + k];
  }

  /** A memo line holds a line break only where its time stamp or text does. */
  lemma MemoLineBreaks(ts: string, text: string)
    requires NoTerminator(ts) && NoTerminator(text)
    ensures '\n' !in MemoLine(ts, text)
  {
    var line := MemoLine(ts, text);
    forall k | 0 <= k < |line| ensures line[k] != '\n' {
      if k < 4 { assert line[k] == "- **"[k]; }
      else if k < 4 + |ts| { assert line[k] == ts[k - 4]; }
      else if k < 4 + |ts| + |Separator| { assert line[k] == Separator[k - 4 - |ts|]; }
      else { assert line[k] == text[k - 4 - |ts| - |Separator|]; }
    }
  }

  /** A memo line whose text is trimmed and non-empty is listed. */
  lemma MemoLineListed(ts: string, text: string)
    requires text != [] && Trim(text) == text
    ensures IsMemoLine(MemoLine(ts, text))
  {
    var line := MemoLine(ts, text);
    assert !IsSpace(text[|text| - 1]) by { TrimEnds(text); }
    assert line[0] == '-' && line[|line| - 1] == text[|text| - 1];
    TrimOfUntrimmed(line);
    assert line[..2] == "- ";
  }

  /** A memo line with a plain time stamp and a trimmed text is listed and read back. */
  lemma MemoLineFacts(ts: string, text: string)
    requires ts != [] && '*' !in ts && NoTerminator(ts)
    requires text != [] && Trim(text) == text && NoTerminator(text)
    ensures var line := MemoLine(ts, text);
      IsMemoLine(line) && '\n' !in line && line != "---" && Display(line) == (ts, text)
  {
    var line := MemoLine(ts, text);
    assert IsMemoLine(line) by { MemoLineListed(ts, text); }
    assert '\n' !in line by { MemoLineBreaks(ts, text); }
    assert line != "---" by { assert line[2] == '*'; }
    assert Display(line) == (ts, text) by { DisplayMemoLine(ts, text); }
  }

  /** The line `addMemo` appends is a memo line without a line break in it. */
  lemma NewMemoLine(input: string, now: Clock)
    requires Trim(input) != "" && NoTerminator(input)
    ensures var line := MemoLine(Timestamp(now), Trim(input));
      IsMemoLine(line) && '\n' !in line && line != "---"
      && Display(line) == (Timestamp(now), Trim(input))
  {
    var ts, text := Timestamp(now), Trim(input);
    assert ts != [] && '*' !in ts && NoTerminator(ts) by { TimestampPlain(now); }
    assert Trim(text) == text && NoTerminator(text) by {
      TrimNoTerminator(input);
      TrimIdempotent(input);
    }
    MemoLineFacts(ts, text);
  }

  /** One more memo line after a file's text is one more line, and one more memo. */
  lemma AppendMemoLine(existing: string, line: string)
    requires IsMemoLine(line) && '\n' !in line
    ensures Split(existing + "\n" + line, '\n') == Split(existing, '\n') + [line]
    ensures MemoLines(existing + "\n" + line) == MemoLines(existing) + [line]
  {
    assert existing + "\n" + line == existing + ['\n'] + line;
    assert Split(existing + "\n" + line, '\n') == Split(existing, '\n') + [line] by {
      SplitAppendLine(existing, '\n', line);
    }
    FilterSnoc(Split(existing, '\n'), line, IsMemoLine);
  }

  /**
   * Adding a memo to an existing file keeps every line of it and appends the
   * new memo, which is listed last and shows the time stamp and the text.
   */
  lemma AddMemoAppends(input: string, connected: bool, existing: string, now: Clock)
    requires AddMemo(input, connected, Some(existing), now).Ok? && NoTerminator(input)
    ensures var content := AddMemo(input, connected, Some(existing), now).write.content;
      var line := MemoLine(Timestamp(now), Trim(input));
      Split(content, '\n') == Split(existing, '\n') + [line]
      && MemoLines(content) == MemoLines(existing) + [line]
      && Display(line) == (Timestamp(now), Trim(input))
  {
    var line := MemoLine(Timestamp(now), Trim(input));
    assert AddMemo(input, connected, Some(existing), now).write.content == existing + "\n" + line by {
      AddMemoContent(input, connected, Some(existing), now);
    }
    assert IsMemoLine(line) && '\n' !in line && Display(line) == (Timestamp(now), Trim(input)) by {
      NewMemoLine(input, now);
    }
    AppendMemoLine(existing, line);
  }

  // ------------------------------------------------------------ front matter

  /** The first line equal to `x` at or after `from`. */
  function IndexOfLine(ls: seq<string>, x: string, from: nat): (r: Option<nat>)
    ensures r.Some? ==> (from <= r.value < |ls| && ls[r.value] == x
      && forall j :: from <= j < r.value ==> ls[j] != x)
    ensures r.None? ==> forall j :: from <= j < |ls| ==> ls[j] != x
    decreases |ls| - from
  {
    if from >= |ls| then None
    else if ls[from] == x then Some(from)
    else IndexOfLine(ls, x, from + 1)
  }

  /** The closing `---` of a front matter block that opens on the first line. */
  function FrontMatterEnd(ls: seq<string>): Option<nat>
  {
    if |ls| > 0 && ls[0] == "---" then IndexOfLine(ls, "---", 1) else None
  }

  /** The lines after the front matter, or all lines of a file without one. */
  function BodyLines(content: string): seq<string>
  {
    var ls := Split(content, '\n');
    match FrontMatterEnd(ls)
    case Some(j) => ls[j + 1..]
    case None => ls
  }

  /** The memo list without the front matter's own `- ` items. */
  function MemoLinesOutsideFrontMatter(content: string): seq<string>
  {
    Filter(BodyLines(content), IsMemoLine)
  }

  lemma HeaderNoBreaks()
    ensures forall k :: 0 <= k < |HeaderLines| ==> '\n' !in HeaderLines[k]
  {
  }

  lemma HeaderSplit(line: string)
    requires '\n' !in line
    ensures Split(MemoHeader + "\n" + line, '\n') == HeaderLines + [line]
  {
    HeaderNoBreaks();
    SplitJoinAppend(HeaderLines, '\n', line);
  }

  /** A line with no white-space margins is listed only when it starts with `- `. */
  lemma UntrimmedNotListed(line: string)
    requires line != [] && !IsSpace(line[0]) && !IsSpace(line[|line| - 1])
    requires |line| < 2 || line[0] != '-' || line[1] != ' '
    ensures !IsMemoLine(line)
  {
    TrimOfUntrimmed(line);
    if |line| >= 2 {
      assert line[..2][0] == line[0] && line[..2][1] == line[1];
    }
  }

  /** The header lines that are not the tag item are not listed. */
  lemma HeaderUnlisted()
    ensures forall k :: 0 <= k < |HeaderLines| && k != 2 ==> !IsMemoLine(HeaderLines[k])
  {
    var ls := HeaderLines;
    assert !IsMemoLine(ls[0]) by { UntrimmedNotListed(ls[0]); }
    assert !IsMemoLine(ls[1]) by { UntrimmedNotListed(ls[1]); }
    assert !IsMemoLine(ls[3]) by { UntrimmedNotListed(ls[3]); }
    assert !IsMemoLine(ls[4]);
    assert !IsMemoLine(ls[5]) by { UntrimmedNotListed(ls[5]); }
    assert !IsMemoLine(ls[6]);
  }

  /** The header's tag item `  - type/ボス` trims to a `- ` item. */
  lemma HeaderTagListed()
    ensures IsMemoLine(HeaderLines[2])
  {
    assert HeaderLines[2] == "  " + "- type/ボス" + "";
    TrimOfPadded("  ", "- type/ボス", "");
  }

  /** Of the header's lines only the tag item is listed. */
  lemma HeaderListed()
    ensures Filter(HeaderLines, IsMemoLine) == [HeaderLines[2]]
  {
    HeaderUnlisted();
    HeaderTagListed();
    FilterOnlyAt(HeaderLines, 2, IsMemoLine);
  }

  /** The header's front matter closes on its fourth line, and nothing after it is listed. */
  lemma HeaderBody()
    ensures FrontMatterEnd(HeaderLines) == Some(3)
    ensures Filter(HeaderLines[4..], IsMemoLine) == []
  {
    HeaderUnlisted();
    FilterNoneKept(HeaderLines[4..], IsMemoLine);
  }

  /** Lines joined and followed by one memo line list their own memo lines and then it. */
  lemma JoinedThenMemo(ls: seq<string>, line: string)
    requires |ls| >= 1 && forall k :: 0 <= k < |ls| ==> '\n' !in ls[k]
    requires IsMemoLine(line) && '\n' !in line
    ensures MemoLines(Join(ls, '\n') + "\n" + line) == Filter(ls, IsMemoLine) + [line]
  {
    var j := Join(ls, '\n');
    assert Split(j + "\n" + line, '\n') == ls + [line] by {
      assert j + "\n" + line == j + ['\n'] + line;
      SplitJoinAppend(ls, '\n', line);
    }
    assert Filter(ls + [line], IsMemoLine) == Filter(ls, IsMemoLine) + [line] by {
      FilterSnoc(ls, line, IsMemoLine);
    }
  }

  /** The header followed by one memo line lists the header's tag item and the memo. */
  lemma HeaderThenMemo(line: string)
    requires IsMemoLine(line) && '\n' !in line
    ensures MemoLines(MemoHeader + "\n" + line) == [HeaderLines[2], line]
  {
    HeaderNoBreaks();
    JoinedThenMemo(HeaderLines, line);
    HeaderListed();
  }

  /** Outside the front matter, the header followed by one memo line lists the memo alone. */
  lemma HeaderThenMemoOutsideFrontMatter(line: string)
    requires IsMemoLine(line) && '\n' !in line
    ensures MemoLinesOutsideFrontMatter(MemoHeader + "\n" + line) == [line]
  {
    var ls := HeaderLines + [line];
    assert Split(MemoHeader + "\n" + line, '\n') == ls by { HeaderSplit(line); }
    assert FrontMatterEnd(ls) == Some(3) by {
      HeaderBody();
      assert ls[..|HeaderLines|] == HeaderLines;
    }
    assert ls[4..] == HeaderLines[4..] + [line];
    assert Filter(HeaderLines[4..] + [line], IsMemoLine) == Filter(HeaderLines[4..], IsMemoLine) + [line] by {
      FilterSnoc(HeaderLines[4..], line, IsMemoLine);
    }
    HeaderBody();
  }

  /**
   * Adding the first memo to a missing file lists two memos: the tag item of
   * the header's front matter, then the new memo.
   */
  lemma AddMemoToMissingFile(input: string, connected: bool, now: Clock)
    requires AddMemo(input, connected, None, now).Ok? && NoTerminator(input)
    ensures var content := AddMemo(input, connected, None, now).write.content;
      MemoLines(content) == [HeaderLines[2], MemoLine(Timestamp(now), Trim(input))]
  {
    var line := MemoLine(Timestamp(now), Trim(input));
    assert AddMemo(input, connected, None, now).write.content == MemoHeader + "\n" + line by {
      AddMemoContent(input, connected, None, now);
    }
    assert IsMemoLine(line) && '\n' !in line by { NewMemoLine(input, now); }
    HeaderThenMemo(line);
  }

  /** Outside the front matter, the first memo added to a missing file is the only one. */
  lemma AddMemoToMissingFileOutsideFrontMatter(input: string, connected: bool, now: Clock)
    requires AddMemo(input, connected, None, now).Ok? && NoTerminator(input)
    ensures var content := AddMemo(input, connected, None, now).write.content;
      MemoLinesOutsideFrontMatter(content) == [MemoLine(Timestamp(now), Trim(input))]
  {
    var line := MemoLine(Timestamp(now), Trim(input));
    assert AddMemo(input, connected, None, now).write.content == MemoHeader + "\n" + line by {
      AddMemoContent(input, connected, None, now);
    }
    assert IsMemoLine(line) && '\n' !in line by { NewMemoLine(input, now); }
    HeaderThenMemoOutsideFrontMatter(line);
  }

  /** A file without front matter lists the same memos either way. */
  lemma NoFrontMatterSameMemos(content: string)
    requires Split(content, '\n')[0] != "---"
    ensures MemoLinesOutsideFrontMatter(content) == MemoLines(content)
  {
  }

  lemma {:induction false} IndexOfLineAppend(ls: seq<string>, x: string, from: nat, y: string)
    requires y != x && from <= |ls|
    ensures IndexOfLine(ls + [y], x, from) == IndexOfLine(ls, x, from)
    decreases |ls| - from
  {
    if from < |ls| {
      assert (ls + [y])[from] == ls[from];
      if ls[from] != x {
        IndexOfLineAppend(ls, x, from + 1, y);
      }
    }
  }

  /** One more memo line after a file's text is one more memo outside its front matter. */
  lemma AppendMemoLineOutsideFrontMatter(existing: string, line: string)
    requires IsMemoLine(line) && '\n' !in line && line != "---"
    ensures MemoLinesOutsideFrontMatter(existing + "\n" + line)
      == MemoLinesOutsideFrontMatter(existing) + [line]
  {
    var ls := Split(existing, '\n');
    assert Split(existing + "\n" + line, '\n') == ls + [line] by { AppendMemoLine(existing, line); }
    assert FrontMatterEnd(ls + [line]) == FrontMatterEnd(ls) by {
      assert (ls + [line])[0] == ls[0];
      if ls[0] == "---" {
        IndexOfLineAppend(ls, "---", 1, line);
      }
    }
    match FrontMatterEnd(ls)
    case Some(j) =>
      assert (ls + [line])[j + 1..] == ls[j + 1..] + [line];
      FilterSnoc(ls[j + 1..], line, IsMemoLine);
    case None =>
      FilterSnoc(ls, line, IsMemoLine);
  }

  /** Outside the front matter too, adding a memo to a file appends it to the list. */
  lemma AddMemoAppendsOutsideFrontMatter(input: string, connected: bool, existing: string, now: Clock)
    requires AddMemo(input, connected, Some(existing), now).Ok? && NoTerminator(input)
    ensures var content := AddMemo(input, connected, Some(existing), now).write.content;
      MemoLinesOutsideFrontMatter(content)
        == MemoLinesOutsideFrontMatter(existing) + [MemoLine(Timestamp(now), Trim(input))]
  {
    var line := MemoLine(Timestamp(now), Trim(input));
    assert AddMemo(input, connected, Some(existing), now).write.content == existing + "\n" + line by {
      AddMemoContent(input, connected, Some(existing), now);
    }
    assert IsMemoLine(line) && '\n' !in line && line != "---" by { NewMemoLine(input, now); }
    AppendMemoLineOutsideFrontMatter(existing, line);
  }

  // ----------------------------------------------------------------- delete

  /** `k` line breaks. */
  function Breaks(k: nat): (r: string)
    ensures |r| == k
  {
    seq(k, _ => '\n')
  }

  /** The number of line breaks `s` starts with. */
  function LeadingBreaks(s: string): (n: nat)
    ensures n <= |s| && s[..n] == Breaks(n) && (n < |s| ==> s[n] != '\n')
    decreases |s|
  {
    if s != [] && s[0] == '\n' then
      var m := LeadingBreaks(s[1..]);
      assert s[..m + 1] == [s[0]] + s[1..][..m];
      assert Breaks(m + 1) == ['\n'] + Breaks(m);
      1 + m
    else
      assert s[..0] == [];
      0
  }

  /** `s.replace(/\n\n\n+/g, '\n\n')`: each run of three or more line breaks becomes two. */
  function CollapseBlankLines(s: string): string
    decreases |s|
  {
    if s == [] then []
    else if s[0] != '\n' then [s[0]] + CollapseBlankLines(s[1..])
    else
      var n := LeadingBreaks(s);
      Breaks(if n >= 3 then 2 else n) + CollapseBlankLines(s[n..])
  }

  const ThreeBreaks: string := "\n\n\n"

  /** No two blank lines in a row. */
  ghost predicate NoThreeBreaks(s: string)
  {
    forall i :: !OccursAt(s, ThreeBreaks, i)
  }

  lemma ThreeBreaksAt(s: string, i: int)
    ensures OccursAt(s, ThreeBreaks, i)
      <==> 0 <= i && i + 3 <= |s| && s[i] == '\n' && s[i + 1] == '\n' && s[i + 2] == '\n'
  {
    if 0 <= i && i + 3 <= |s| {
      assert s[i..i + 3] == [s[i], s[i + 1], s[i + 2]];
    }
  }

  lemma NoThreeBreaksSuffix(s: string, k: nat)
    requires NoThreeBreaks(s) && k <= |s|
    ensures NoThreeBreaks(s[k..])
  {
    forall i | OccursAt(s[k..], ThreeBreaks, i) ensures false {
      assert s[k..][i..i + 3] == s[k + i..k + i + 3];
      assert OccursAt(s, ThreeBreaks, k + i);
    }
  }

  /** After the collapse, no run of three line breaks is left. */
  lemma {:induction false} CollapseNoThreeBreaks(s: string)
    ensures NoThreeBreaks(CollapseBlankLines(s))
    decreases |s|
  {
    if s == [] {
    } else if s[0] != '\n' {
      var rest := CollapseBlankLines(s[1..]);
      CollapseNoThreeBreaks(s[1..]);
      var r := [s[0]] + rest;
      forall i ensures !OccursAt(r, ThreeBreaks, i) {
        ThreeBreaksAt(r, i);
        if i >= 1 {
          ThreeBreaksAt(rest, i - 1);
        }
      }
    } else {
      var n := LeadingBreaks(s);
      var run := Breaks(if n >= 3 then 2 else n);
      var c := CollapseBlankLines(s[n..]);
      CollapseNoThreeBreaks(s[n..]);
      assert c == [] || c[0] != '\n';
      assert |run| <= 2;
      var r := run + c;
      forall i ensures !OccursAt(r, ThreeBreaks, i) {
        ThreeBreaksAt(r, i);
        if i >= |run| {
          ThreeBreaksAt(c, i - |run|);
          if 0 <= i && i + 3 <= |r| {
            assert r[i] == c[i - |run|] && r[i + 1] == c[i - |run| + 1] && r[i + 2] == c[i - |run| + 2];
          }
        } else if 0 <= i && i + 3 <= |r| {
          assert r[|run|] == c[0];
        }
      }
    }
  }

  /** Text without a run of three line breaks is left as it is. */
  lemma {:induction false} CollapseOfNoThreeBreaks(s: string)
    requires NoThreeBreaks(s)
    ensures CollapseBlankLines(s) == s
    decreases |s|
  {
    if s == [] {
    } else if s[0] != '\n' {
      NoThreeBreaksSuffix(s, 1);
      CollapseOfNoThreeBreaks(s[1..]);
      assert [s[0]] + s[1..] == s;
    } else {
      var n := LeadingBreaks(s);
      assert n < 3 by {
        if n >= 3 {
          assert s[..n][1] == s[1] && s[..n][2] == s[2];
          ThreeBreaksAt(s, 0);
          assert false;
        }
      }
      NoThreeBreaksSuffix(s, n);
      CollapseOfNoThreeBreaks(s[n..]);
      SplitAt(s, n);
    }
  }

  /** Collapsing twice is collapsing once. */
  lemma CollapseIdempotent(s: string)
    ensures CollapseBlankLines(CollapseBlankLines(s)) == CollapseBlankLines(s)
  {
    CollapseNoThreeBreaks(s);
    CollapseOfNoThreeBreaks(CollapseBlankLines(s));
  }

  predicate NotBreak(c: char)
  {
    c != '\n'
  }

  /** The collapse removes line breaks and nothing else. */
  lemma {:induction false} CollapseKeepsText(s: string)
    ensures Filter(CollapseBlankLines(s), NotBreak) == Filter(s, NotBreak)
    decreases |s|, 1
  {
    if s == [] {
    } else if s[0] != '\n' {
      CollapseKeepsText(s[1..]);
      var c := CollapseBlankLines(s[1..]);
      assert ([s[0]] + c)[1..] == c;
    } else {
      CollapseRunKeepsText(s);
    }
  }

  /** A run of line breaks in front of `x` adds no text. */
  lemma BreaksAddNoText(k: nat, x: string)
    ensures Filter(Breaks(k) + x, NotBreak) == Filter(x, NotBreak)
  {
    FilterAppend(Breaks(k), x, NotBreak);
    FilterNoneKept(Breaks(k), NotBreak);
  }

  lemma {:induction false} CollapseRunKeepsText(s: string)
    requires s != [] && s[0] == '\n'
    ensures Filter(CollapseBlankLines(s), NotBreak) == Filter(s, NotBreak)
    decreases |s|, 0
  {
    var n := LeadingBreaks(s);
    var c := CollapseBlankLines(s[n..]);
    assert Filter(CollapseBlankLines(s), NotBreak) == Filter(c, NotBreak) by {
      BreaksAddNoText(if n >= 3 then 2 else n, c);
    }
    assert Filter(s, NotBreak) == Filter(s[n..], NotBreak) by {
      SplitAt(s, n);
      BreaksAddNoText(n, s[n..]);
    }
    assert Filter(c, NotBreak) == Filter(s[n..], NotBreak) by {
      CollapseKeepsText(s[n..]);
    }
  }

  /** What `deleteMemo` makes of the text before writing it: collapsed, trimmed, one final line break. */
  ghost predicate Tidied(s: string)
  {
    EndsWith(s, "\n") && NoThreeBreaks(s) && (|s| == 1 || !IsSpace(s[|s| - 2]))
  }

  lemma TrimmedEnding(c: string)
    requires NoThreeBreaks(c)
    ensures Tidied(Trim(c) + "\n")
  {
    var i, j := TrimMargins(c);
    var r := Trim(c) + "\n";
    assert |r| == j - i + 1 && r[|r| - 1] == '\n';
    forall m ensures !OccursAt(r, ThreeBreaks, m) {
      ThreeBreaksAt(r, m);
      if 0 <= m && m + 3 <= |r| {
        if m + 3 <= j - i {
          ThreeBreaksAt(c, i + m);
          assert r[m] == c[i + m] && r[m + 1] == c[i + m + 1] && r[m + 2] == c[i + m + 2];
        } else {
          assert r[|r| - 2] == c[j - 1];
        }
      }
    }
    if |r| > 1 {
      assert r[|r| - 2] == c[j - 1];
    }
  }

  /** `content.replace(/\n\n\n+/g, '\n\n').trim() + '\n'` */
  function Tidy(s: string): (r: string)
    ensures Tidied(r)
  {
    CollapseNoThreeBreaks(s);
    TrimmedEnding(CollapseBlankLines(s));
    Trim(CollapseBlankLines(s)) + "\n"
  }

  /**
   * `deleteMemo(idx)` as written: the first occurrence of the memo's line
   * anywhere in the file is cut out.
   */
  function DeleteMemo(connected: bool, raw: string, lines: Option<seq<string>>, idx: int): (r: Option<Todos.Write>)
    ensures r.Some? <==> connected && lines.Some? && 0 <= idx < |lines.value| && lines.value[idx] != ""
    ensures r.Some? ==> r.value.path == MemoFile && r.value.message == "Bot: memo done" && Tidied(r.value.content)
  {
    if !connected || lines.None? || idx < 0 || idx >= |lines.value| || lines.value[idx] == "" then None
    else Some(Todos.Write(MemoFile, Tidy(ReplaceFirst(raw, lines.value[idx], "")), "Bot: memo done"))
  }

  // ------------------------------------------------------- memos line by line

  /** The listed lines, each trimmed. */
  function TrimmedMemos(ls: seq<string>): seq<string>
  {
    if ls == [] then [] else (if IsMemoLine(ls[0]) then [Trim(ls[0])] else []) + TrimmedMemos(ls[1..])
  }

  /** The memos of a file, each trimmed. */
  function MemoTexts(content: string): seq<string>
  {
    TrimmedMemos(Split(content, '\n'))
  }

  lemma {:induction false} TrimmedMemosAppend(a: seq<string>, b: seq<string>)
    ensures TrimmedMemos(a + b) == TrimmedMemos(a) + TrimmedMemos(b)
  {
    if a != [] {
      assert (a + b)[1..] == a[1..] + b;
      TrimmedMemosAppend(a[1..], b);
    } else {
      assert a + b == b;
    }
  }

  /** The trimmed memos are the memo list, trimmed. */
  lemma {:induction false} TrimmedMemosOfMemoLines(ls: seq<string>)
    ensures |TrimmedMemos(ls)| == |Filter(ls, IsMemoLine)|
    ensures forall i :: 0 <= i < |TrimmedMemos(ls)| ==> TrimmedMemos(ls)[i] == Trim(Filter(ls, IsMemoLine)[i])
  {
    if ls != [] {
      var t, f := TrimmedMemos(ls[1..]), Filter(ls[1..], IsMemoLine);
      TrimmedMemosOfMemoLines(ls[1..]);
      var h: seq<string> := if IsMemoLine(ls[0]) then [ls[0]] else [];
      var th: seq<string> := if IsMemoLine(ls[0]) then [Trim(ls[0])] else [];
      assert Filter(ls, IsMemoLine) == h + f;
      assert TrimmedMemos(ls) == th + t;
      forall i | 0 <= i < |th + t| ensures (th + t)[i] == Trim((h + f)[i]) {
        if i >= |h| {
          assert (th + t)[i] == t[i - |h|] && (h + f)[i] == f[i - |h|];
        }
      }
    }
  }

  lemma BlankLineUnlisted()
    ensures TrimmedMemos([""]) == [] && MemoTexts("") == []
  {
    assert !IsMemoLine("");
    assert Split("", '\n') == [""];
  }

  /** A run of line breaks separates the lines before it from those after it. */
  lemma {:induction false} BreaksBetween(p: string, k: nat, x: string)
    requires k >= 1
    ensures MemoTexts(p + (Breaks(k) + x)) == MemoTexts(p) + MemoTexts(x)
    decreases k
  {
    var tail := Breaks(k - 1) + x;
    var sp, st := Split(p, '\n'), Split(tail, '\n');
    assert Split(p + (Breaks(k) + x), '\n') == sp + st by {
      assert Breaks(k) == ['\n'] + Breaks(k - 1);
      assert p + (Breaks(k) + x) == p + ['\n'] + tail;
      SplitConcat(p, '\n', tail);
    }
    assert TrimmedMemos(st) == MemoTexts(x) by {
      if k > 1 {
        BreaksBetween([], k - 1, x);
        assert [] + tail == tail;
        BlankLineUnlisted();
      } else {
        assert tail == x;
      }
    }
    TrimmedMemosAppend(sp, st);
  }

  lemma SplitAt(s: string, n: nat)
    requires n <= |s|
    ensures s == s[..n] + s[n..]
  {
  }

  /** Collapsing blank lines keeps every memo, in order. */
  lemma {:induction false} CollapseKeepsMemos(p: string, s: string)
    requires '\n' !in p
    ensures MemoTexts(p + CollapseBlankLines(s)) == MemoTexts(p + s)
    decreases |s|, 1
  {
    if s == [] {
      assert p + [] == p;
    } else if s[0] != '\n' {
      CollapseCharKeepsMemos(p, s);
    } else {
      CollapseRunKeepsMemos(p, s);
    }
  }

  lemma Reassociate(p: string, c: char, x: string)
    ensures p + ([c] + x) == (p + [c]) + x
  {
  }

  lemma {:induction false} CollapseCharKeepsMemos(p: string, s: string)
    requires '\n' !in p && s != [] && s[0] != '\n'
    ensures MemoTexts(p + CollapseBlankLines(s)) == MemoTexts(p + s)
    decreases |s|, 0
  {
    var q, c := p + [s[0]], CollapseBlankLines(s[1..]);
    assert p + CollapseBlankLines(s) == q + c by {
      assert CollapseBlankLines(s) == [s[0]] + c;
      Reassociate(p, s[0], c);
    }
    assert p + s == q + s[1..] by {
      assert s == [s[0]] + s[1..];
      Reassociate(p, s[0], s[1..]);
    }
    assert MemoTexts(q + c) == MemoTexts(q + s[1..]) by {
      CollapseKeepsMemos(q, s[1..]);
    }
  }

  lemma {:induction false} CollapseRunKeepsMemos(p: string, s: string)
    requires '\n' !in p && s != [] && s[0] == '\n'
    ensures MemoTexts(p + CollapseBlankLines(s)) == MemoTexts(p + s)
    decreases |s|, 0
  {
    var n := LeadingBreaks(s);
    var c := CollapseBlankLines(s[n..]);
    assert MemoTexts(p + CollapseBlankLines(s)) == MemoTexts(p) + MemoTexts(c) by {
      BreaksBetween(p, if n >= 3 then 2 else n, c);
    }
    assert MemoTexts(p + s) == MemoTexts(p) + MemoTexts(s[n..]) by {
      SplitAt(s, n);
      BreaksBetween(p, n, s[n..]);
    }
    assert MemoTexts(c) == MemoTexts(s[n..]) by {
      CollapseKeepsMemos([], s[n..]);
      assert [] + c == c && [] + s[n..] == s[n..];
    }
  }

  /** A final line break adds only a blank line. */
  lemma SnocBreakKeepsMemos(t: string)
    ensures MemoTexts(t + "\n") == MemoTexts(t)
  {
    BreaksBetween(t, 1, []);
    assert Breaks(1) + [] == "\n";
    BlankLineUnlisted();
  }

  /** A leading line break adds only a blank line. */
  lemma ConsBreakKeepsMemos(t: string)
    ensures MemoTexts("\n" + t) == MemoTexts(t)
  {
    BreaksBetween([], 1, t);
    assert [] + (Breaks(1) + t) == "\n" + t;
    BlankLineUnlisted();
  }

  /** Trailing space on the last line does not change its trimmed form. */
  lemma SnocSpaceKeepsMemos(t: string, c: char)
    requires IsSpace(c) && c != '\n'
    ensures MemoTexts(t + [c]) == MemoTexts(t)
  {
    var ls := Split(t, '\n');
    var last := ls[|ls| - 1];
    assert Split(t + [c], '\n') == ls[..|ls| - 1] + [last + [c]] by { SplitSnoc(t, '\n', c); }
    assert Trim(last + [c]) == Trim(last) by { TrimSnocSpace(last, c); }
    TrimmedMemosAppend(ls[..|ls| - 1], [last + [c]]);
    TrimmedMemosAppend(ls[..|ls| - 1], [last]);
    assert ls == ls[..|ls| - 1] + [last];
  }

  /** Leading space on the first line does not change its trimmed form. */
  lemma ConsSpaceKeepsMemos(c: char, t: string)
    requires IsSpace(c) && c != '\n'
    ensures MemoTexts([c] + t) == MemoTexts(t)
  {
    var ls := Split(t, '\n');
    assert Split([c] + t, '\n') == [[c] + ls[0]] + ls[1..] by { SplitCons(c, '\n', t); }
    assert Trim([c] + ls[0]) == Trim(ls[0]) by { TrimConsSpace(c, ls[0]); }
    TrimmedMemosAppend([[c] + ls[0]], ls[1..]);
    TrimmedMemosAppend([ls[0]], ls[1..]);
    assert ls == [ls[0]] + ls[1..];
  }

  lemma {:induction false} TrimEndKeepsMemos(s: string)
    ensures MemoTexts(TrimEnd(s)) == MemoTexts(s)
    decreases |s|
  {
    if s != [] && IsSpace(s[|s| - 1]) {
      var t, c := s[..|s| - 1], s[|s| - 1];
      TrimEndKeepsMemos(t);
      assert s == t + [c];
      if c == '\n' {
        SnocBreakKeepsMemos(t);
      } else {
        SnocSpaceKeepsMemos(t, c);
      }
    }
  }

  lemma {:induction false} TrimStartKeepsMemos(s: string)
    ensures MemoTexts(TrimStart(s)) == MemoTexts(s)
    decreases |s|
  {
    if s != [] && IsSpace(s[0]) {
      var c, t := s[0], s[1..];
      TrimStartKeepsMemos(t);
      assert s == [c] + t;
      if c == '\n' {
        ConsBreakKeepsMemos(t);
      } else {
        ConsSpaceKeepsMemos(c, t);
      }
    }
  }

  /** The clean-up before writing keeps every memo, in order. */
  lemma TidyKeepsMemos(s: string)
    ensures MemoTexts(Tidy(s)) == MemoTexts(s)
  {
    var c := CollapseBlankLines(s);
    assert MemoTexts(c) == MemoTexts(s) by {
      CollapseKeepsMemos([], s);
      assert [] + c == c && [] + s == s;
    }
    assert MemoTexts(Trim(c) + "\n") == MemoTexts(Trim(c)) by {
      SnocBreakKeepsMemos(Trim(c));
    }
    TrimEndKeepsMemos(c);
    TrimStartKeepsMemos(TrimEnd(c));
  }

  /** The position in `ls` of its `idx`-th listed line. */
  function MemoPosition(ls: seq<string>, idx: nat): (k: nat)
    requires idx < |TrimmedMemos(ls)|
    ensures k < |ls| && IsMemoLine(ls[k]) && |TrimmedMemos(ls[..k])| == idx
    decreases |ls|
  {
    if IsMemoLine(ls[0]) && idx == 0 then
      assert ls[..0] == [];
      0
    else
      var j := if IsMemoLine(ls[0]) then idx - 1 else idx;
      var k := MemoPosition(ls[1..], j);
      assert ls[..k + 1][1..] == ls[1..][..k];
      1 + k
  }

  lemma TrimmedMemosAround(a: seq<string>, x: string, b: seq<string>)
    requires IsMemoLine(x)
    ensures TrimmedMemos(a + [x] + b) == TrimmedMemos(a) + [Trim(x)] + TrimmedMemos(b)
  {
    TrimmedMemosAppend(a + [x], b);
    TrimmedMemosAppend(a, [x]);
    assert [x][1..] == [];
  }

  lemma Around<T>(m: seq<T>, k: nat)
    requires k < |m|
    ensures m == m[..k] + [m[k]] + m[k + 1..]
  {
  }

  lemma SliceAround<T>(m: seq<T>, a: seq<T>, x: T, b: seq<T>)
    requires m == a + [x] + b
    ensures m[|a|] == x && m[..|a|] == a && m[|a| + 1..] == b
  {
  }

  /** The lines before and after that position hold the other memos. */
  lemma MemoPositionSplits(ls: seq<string>, idx: nat)
    requires idx < |TrimmedMemos(ls)|
    ensures var k := MemoPosition(ls, idx); var memos := TrimmedMemos(ls);
      Trim(ls[k]) == memos[idx] && TrimmedMemos(ls[..k]) + TrimmedMemos(ls[k + 1..]) == memos[..idx] + memos[idx + 1..]
  {
    var k := MemoPosition(ls, idx);
    var before, after := TrimmedMemos(ls[..k]), TrimmedMemos(ls[k + 1..]);
    assert TrimmedMemos(ls) == before + [Trim(ls[k])] + after by {
      Around(ls, k);
      TrimmedMemosAround(ls[..k], ls[k], ls[k + 1..]);
    }
    SliceAround(TrimmedMemos(ls), before, Trim(ls[k]), after);
  }

  /**
   * `deleteMemo(idx)` as evidently intended: the `idx`-th memo line itself
   * is removed from the file.
   */
  function DeleteMemoLine(connected: bool, raw: string, loaded: bool, idx: int): (r: Option<Todos.Write>)
    ensures r.Some? <==> connected && loaded && 0 <= idx < |MemoTexts(raw)|
    ensures r.Some? ==> r.value.path == MemoFile && r.value.message == "Bot: memo done" && Tidied(r.value.content)
  {
    if !connected || !loaded || idx < 0 || idx >= |MemoTexts(raw)| then None
    else
      var ls := Split(raw, '\n');
      var k := MemoPosition(ls, idx);
      Some(Todos.Write(MemoFile, Tidy(Join(ls[..k] + ls[k + 1..], '\n')), "Bot: memo done"))
  }

  lemma LinesWithoutBreaks(ls: seq<string>, k: nat)
    requires k < |ls| && forall m :: 0 <= m < |ls| ==> '\n' !in ls[m]
    ensures var rest := ls[..k] + ls[k + 1..]; forall m :: 0 <= m < |rest| ==> '\n' !in rest[m]
  {
    var rest := ls[..k] + ls[k + 1..];
    forall m | 0 <= m < |rest| ensures '\n' !in rest[m] {
      if m < k { assert rest[m] == ls[m]; } else { assert rest[m] == ls[m + 1]; }
    }
  }

  /** Deleting the `idx`-th memo leaves exactly the other memos, in order. */
  lemma DeleteMemoLineRemoves(connected: bool, raw: string, loaded: bool, idx: int)
    requires DeleteMemoLine(connected, raw, loaded, idx).Some?
    ensures var memos := MemoTexts(raw);
      MemoTexts(DeleteMemoLine(connected, raw, loaded, idx).value.content) == memos[..idx] + memos[idx + 1..]
  {
    var ls := Split(raw, '\n');
    var k := MemoPosition(ls, idx);
    var rest := ls[..k] + ls[k + 1..];
    var joined := Join(rest, '\n');
    assert TrimmedMemos(rest) == MemoTexts(raw)[..idx] + MemoTexts(raw)[idx + 1..] by {
      TrimmedMemosAppend(ls[..k], ls[k + 1..]);
      MemoPositionSplits(ls, idx);
    }
    assert MemoTexts(joined) == TrimmedMemos(rest) by {
      if rest == [] {
        BlankLineUnlisted();
      } else {
        LinesWithoutBreaks(ls, k);
        SplitJoin(rest, '\n');
      }
    }
    TidyKeepsMemos(joined);
  }

  // ------------------------------------------------- delete: a shared prefix

  /** Two lines joined by one line break split back into those two lines. */
  lemma TwoLines(u: string, v: string)
    requires '\n' !in u && '\n' !in v
    ensures Split(u + "\n" + v, '\n') == [u, v]
  {
    assert Split(u, '\n') == [u];
    SplitAppendLine(u, '\n', v);
  }

  /** At most one line break: no blank line at all. */
  lemma OneBreak(u: string, v: string)
    requires '\n' !in u && '\n' !in v
    ensures NoThreeBreaks(u + "\n" + v)
  {
    var y := u + "\n" + v;
    forall i ensures !OccursAt(y, ThreeBreaks, i) {
      ThreeBreaksAt(y, i);
      if 0 <= i && i + 3 <= |y| && i == |u| {
        assert y[i + 1] == v[0];
      }
    }
  }

  /** Text with no blank line and no outer space is written back with one final line break. */
  lemma TidyOfPlain(y: string)
    requires NoThreeBreaks(y) && y != [] && !IsSpace(y[0]) && !IsSpace(y[|y| - 1])
    ensures Tidy(y) == y + "\n"
  {
    CollapseOfNoThreeBreaks(y);
    TrimOfUntrimmed(y);
  }

  lemma TrimmedMemosTwo(u: string, v: string)
    requires IsMemoLine(u) && IsMemoLine(v)
    ensures TrimmedMemos([u, v]) == [Trim(u), Trim(v)]
  {
    assert [v][1..] == [];
    assert TrimmedMemos([v]) == [Trim(v)];
    assert [u, v][1..] == [v];
    assert TrimmedMemos([u, v]) == [Trim(u)] + TrimmedMemos([v]);
  }

  /** A line that starts with "- " and ends in a visible character is listed as it is. */
  lemma ListedAsIs(line: string)
    requires |line| > 2 && line[..2] == "- " && !IsSpace(line[|line| - 1])
    ensures IsMemoLine(line) && Trim(line) == line
  {
    TrimOfUntrimmed(line);
  }

  /** The file of the example below: two memos, the second a prefix of the first. */
  lemma SharedPrefixListed(a: string, x: string)
    requires a != [] && x != [] && '\n' !in a && '\n' !in x
    requires !IsSpace(a[|a| - 1]) && !IsSpace(x[|x| - 1])
    ensures var first, second := "- " + a + x, "- " + a;
      MemoLines(first + "\n" + second) == [first, second] && MemoTexts(first + "\n" + second) == [first, second]
  {
    var first, second := "- " + a + x, "- " + a;
    TwoLines(first, second);
    ListedAsIs(first);
    ListedAsIs(second);
    FilterAllKept([first, second], IsMemoLine);
    TrimmedMemosTwo(first, second);
  }

  lemma DeleteMemoContent(raw: string, lines: seq<string>, idx: nat)
    requires idx < |lines| && lines[idx] != ""
    ensures DeleteMemo(true, raw, Some(lines), idx)
      == Some(Todos.Write(MemoFile, Tidy(ReplaceFirst(raw, lines[idx], "")), "Bot: memo done"))
  {
  }

  /**
   * `raw.replace(line, '')` removes the first place the text of the memo
   * occurs, not the memo's own line: deleting the memo "- a" of a file whose
   * earlier memo reads "- a" + x strips the start of that earlier memo and
   * leaves "- a" in place.
   */
  lemma DeleteMemoHitsEarlierLine(a: string, x: string)
    requires a != [] && x != [] && '\n' !in a && '\n' !in x
    requires !IsSpace(a[|a| - 1]) && !IsSpace(x[0]) && !IsSpace(x[|x| - 1])
    ensures var first, second := "- " + a + x, "- " + a;
      DeleteMemo(true, first + "\n" + second, Some([first, second]), 1)
        == Some(Todos.Write(MemoFile, x + "\n" + second + "\n", "Bot: memo done"))
  {
    var first, second := "- " + a + x, "- " + a;
    var raw := first + "\n" + second;
    var left := x + "\n" + second;
    assert ReplaceFirst(raw, second, "") == left by {
      assert OccursAt(raw, second, 0) by {
        assert raw[..|second|] == second;
      }
      ReplaceFirstWithoutDollar(raw, second, "");
      assert raw[|second|..] == left;
    }
    assert Tidy(left) == left + "\n" by {
      OneBreak(x, second);
      assert left[0] == x[0] && left[|left| - 1] == a[|a| - 1];
      TidyOfPlain(left);
    }
    DeleteMemoContent(raw, [first, second], 1);
  }

  lemma DeleteMemoLineContent(raw: string, idx: nat)
    requires idx < |MemoTexts(raw)|
    ensures var ls := Split(raw, '\n'); var k := MemoPosition(ls, idx);
      DeleteMemoLine(true, raw, true, idx)
        == Some(Todos.Write(MemoFile, Tidy(Join(ls[..k] + ls[k + 1..], '\n')), "Bot: memo done"))
  {
  }

  /** Removing the memo's own line keeps the earlier memo whole. */
  lemma DeleteMemoLineKeepsEarlierLine(a: string, x: string)
    requires a != [] && x != [] && '\n' !in a && '\n' !in x
    requires !IsSpace(a[|a| - 1]) && !IsSpace(x[|x| - 1])
    ensures var first, second := "- " + a + x, "- " + a;
      DeleteMemoLine(true, first + "\n" + second, true, 1)
        == Some(Todos.Write(MemoFile, first + "\n", "Bot: memo done"))
  {
    var first, second := "- " + a + x, "- " + a;
    var raw := first + "\n" + second;
    var ls := [first, second];
    assert Split(raw, '\n') == ls && TrimmedMemos(ls) == ls by {
      TwoLines(first, second);
      SharedPrefixListed(a, x);
    }
    assert MemoPosition(ls, 1) == 1 by {
      assert ls[1..] == [second];
    }
    assert ls[..1] + ls[2..] == [first];
    assert Tidy(first) == first + "\n" by {
      assert NoThreeBreaks(first) by {
        forall i ensures !OccursAt(first, ThreeBreaks, i) {
          ThreeBreaksAt(first, i);
        }
      }
      TidyOfPlain(first);
    }
    DeleteMemoLineContent(raw, 1);
  }
}
