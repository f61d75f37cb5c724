/**
 * String primitives of the JavaScript runtime that the dashboard relies on:
 * `startsWith`, `endsWith`, `includes`/`indexOf`, `trim`, `split` and `join`
 * on a one-character separator, `replace` with a string pattern, the regular
 * expression classes `\s` and `.`, and `filter` over sequences.
 *
 * Strings are sequences of Unicode scalar values; lengths are counted in
 * scalar values, not in UTF-16 code units.
 */
module Text {

  datatype Option<T> = None | Some(value: T)

  /** The ECMAScript LineTerminator characters (what `.` in a regex never matches). */
  predicate IsLineTerminator(c: char)
  {
    c == '\n' || c == '\r' || c == '\U{2028}' || c == '\U{2029}'
  }

  /** WhiteSpace or LineTerminator: what `trim` removes and what the regex `\s` matches. */
  predicate IsSpace(c: char)
  {
    || c == '\t' || c == '\U{000B}' || c == '\U{000C}' || c == ' '
    || c == '\U{00A0}' || c == '\U{FEFF}' || c == '\U{1680}'
    || ('\U{2000}' <= c <= '\U{200A}')
    || c == '\U{202F}' || c == '\U{205F}' || c == '\U{3000}'
    || IsLineTerminator(c)
  }

  predicate AllSpace(s: string)
  {
    forall i :: 0 <= i < |s| ==> IsSpace(s[i])
  }

  /** `s.replace(/\s/g, '')` */
  function RemoveSpace(s: string): (r: string)
    ensures forall i :: 0 <= i < |r| ==> !IsSpace(r[i])
  {
    if s == [] then []
    else (if IsSpace(s[0]) then [] else [s[0]]) + RemoveSpace(s[1..])
  }

  lemma RemoveSpaceAppend(a: string, b: string)
    ensures RemoveSpace(a + b) == RemoveSpace(a) + RemoveSpace(b)
  {
    if a == [] {
      assert a + b == b;
    } else {
      assert (a + b)[1..] == a[1..] + b;
      RemoveSpaceAppend(a[1..], b);
    }
  }

  lemma RemoveSpaceOfSpace(w: string)
    requires AllSpace(w)
    ensures RemoveSpace(w) == []
  {
  }

  lemma RemoveSpaceOfNoSpace(s: string)
    requires forall i :: 0 <= i < |s| ==> !IsSpace(s[i])
    ensures RemoveSpace(s) == s
  {
    if s != [] {
      RemoveSpaceOfNoSpace(s[1..]);
      assert [s[0]] + s[1..] == s;
    }
  }

  predicate StartsWith(s: string, p: string)
  {
    |p| <= |s| && s[..|p|] == p
  }

  predicate EndsWith(s: string, p: string)
  {
    |p| <= |s| && s[|s| - |p|..] == p
  }

  /** `p` occurs in `s` starting at index `i`. */
  predicate OccursAt(s: string, p: string, i: int)
  {
    0 <= i && i + |p| <= |s| && s[i..i + |p|] == p
  }

  /** The first index at or after `from` where `p` occurs (`indexOf(p, from)`). */
  function IndexOfFrom(s: string, p: string, from: nat): (r: Option<nat>)
    requires from <= |s|
    ensures r.Some? ==> from <= r.value && OccursAt(s, p, r.value)
    ensures r.Some? ==> forall j :: from <= j < r.value ==> !OccursAt(s, p, j)
    ensures r.None? ==> forall j :: from <= j ==> !OccursAt(s, p, j)
    decreases |s| - from
  {
    if OccursAt(s, p, from) then Some(from)
    else if from == |s| then None
    else IndexOfFrom(s, p, from + 1)
  }

  /** `s.indexOf(p)`, with `None` for -1. */
  function IndexOf(s: string, p: string): (r: Option<nat>)
    ensures r.Some? <==> exists j :: OccursAt(s, p, j)
    ensures r.Some? ==> OccursAt(s, p, r.value) && forall j :: 0 <= j < r.value ==> !OccursAt(s, p, j)
  {
    IndexOfFrom(s, p, 0)
  }

  /** `s.includes(p)` */
  predicate Contains(s: string, p: string)
  {
    IndexOf(s, p).Some?
  }

  /** `s.replace(p, q)` for a string pattern whose replacement contains no `$`-pattern. */
  function ReplaceFirstLiteral(s: string, p: string, q: string): (r: string)
  {
    match IndexOf(s, p)
    case None => s
    case Some(i) => s[..i] + q + s[i + |p|..]
  }

  /**
   * The replacement text of `s.replace(p, q)` for the match at `i`: the
   * patterns `$$`, `$&`, `` $` `` and `$'` of `q` are expanded; any other `$`
   * is kept, since a string pattern has no capture groups.
   */
  function Substitution(q: string, s: string, i: nat, n: nat): (r: string)
    requires i + n <= |s|
    ensures '$' !in q ==> r == q
  {
    if q == [] then []
    else if q[0] == '$' && |q| >= 2 && q[1] == '$' then "$" + Substitution(q[2..], s, i, n)
    else if q[0] == '$' && |q| >= 2 && q[1] == '&' then s[i..i + n] + Substitution(q[2..], s, i, n)
    else if q[0] == '$' && |q| >= 2 && q[1] == '`' then s[..i] + Substitution(q[2..], s, i, n)
    else if q[0] == '$' && |q| >= 2 && q[1] == '\'' then s[i + n..] + Substitution(q[2..], s, i, n)
    else [q[0]] + Substitution(q[1..], s, i, n)
  }

  /** Text before the first `$` of the replacement is inserted as it is. */
  lemma {:induction false} SubstitutionOfPlain(a: string, b: string, s: string, i: nat, n: nat)
    requires i + n <= |s| && '$' !in a
    ensures Substitution(a + b, s, i, n) == a + Substitution(b, s, i, n)
  {
    if a != [] {
      assert (a + b)[1..] == a[1..] + b;
      SubstitutionOfPlain(a[1..], b, s, i, n);
      assert a == [a[0]] + a[1..];
    } else {
      assert a + b == b;
    }
  }

  /** `s.replace(p, q)` for a string pattern `p`: the first occurrence is replaced. */
  function ReplaceFirst(s: string, p: string, q: string): string
  {
    match IndexOf(s, p)
    case None => s
    case Some(i) => s[..i] + Substitution(q, s, i, |p|) + s[i + |p|..]
  }

  /** Without a `$` in the replacement, `replace` inserts it as it is. */
  lemma ReplaceFirstWithoutDollar(s: string, p: string, q: string)
    requires '$' !in q
    ensures ReplaceFirst(s, p, q) == ReplaceFirstLiteral(s, p, q)
  {
  }

  /** Remove leading white space. */
  function TrimStart(s: string): (r: string)
    ensures |r| <= |s|
  {
    if s != [] && IsSpace(s[0]) then TrimStart(s[1..]) else s
  }

  /** `TrimStart` drops exactly the leading white space. */
  lemma {:induction false} TrimStartSpec(s: string)
    ensures var r := TrimStart(s);
      r == s[|s| - |r|..] && AllSpace(s[..|s| - |r|]) && (r == [] || !IsSpace(r[0]))
  {
    if s != [] && IsSpace(s[0]) {
      TrimStartSpec(s[1..]);
      var r := TrimStart(s[1..]);
      assert s[1..][..|s| - 1 - |r|] == s[1..|s| - |r|];
    }
  }

  /** Remove trailing white space. */
  function TrimEnd(s: string): (r: string)
    ensures |r| <= |s|
  {
    if s != [] && IsSpace(s[|s| - 1]) then TrimEnd(s[..|s| - 1]) else s
  }

  /** `TrimEnd` drops exactly the trailing white space. */
  lemma {:induction false} TrimEndSpec(s: string)
    ensures var r := TrimEnd(s);
      r == s[..|r|] && AllSpace(s[|r|..]) && (r == [] || !IsSpace(r[|r| - 1]))
  {
    if s != [] && IsSpace(s[|s| - 1]) {
      TrimEndSpec(s[..|s| - 1]);
      var r := TrimEnd(s[..|s| - 1]);
      assert s[..|s| - 1][|r|..] == s[|r|..|s| - 1];
    }
  }

  /** `s.trim()`: the slice of `s` between its leading and its trailing white space. */
  function Trim(s: string): (r: string)
    ensures |r| <= |s|
  {
    TrimStart(TrimEnd(s))
  }

  /** The result of `trim` neither starts nor ends with white space. */
  lemma TrimEnds(s: string)
    ensures Trim(s) == [] || (!IsSpace(Trim(s)[0]) && !IsSpace(Trim(s)[|Trim(s)| - 1]))
  {
    var e := TrimEnd(s);
    TrimEndSpec(s);
    TrimStartSpec(e);
    var r := TrimStart(e);
    if r != [] {
      assert r[|r| - 1] == e[|e| - 1];
    }
  }

  /** What `trim` removes is white space at the two ends. */
  lemma TrimSlice(s: string)
    ensures exists i, j :: 0 <= i <= j <= |s| && Trim(s) == s[i..j] && AllSpace(s[..i]) && AllSpace(s[j..])
  {
    var e := TrimEnd(s);
    TrimEndSpec(s);
    TrimStartSpec(e);
    var r := TrimStart(e);
    var i := |e| - |r|;
    assert r == s[i..|e|];
    assert s[..i] == e[..i];
  }

  lemma TrimOfUntrimmed(s: string)
    requires s == [] || (!IsSpace(s[0]) && !IsSpace(s[|s| - 1]))
    ensures Trim(s) == s
  {
  }

  lemma TrimIdempotent(s: string)
    ensures Trim(Trim(s)) == Trim(s)
  {
    TrimEnds(s);
    TrimOfUntrimmed(Trim(s));
  }

  lemma {:induction false} TrimStartPadded(w: string, x: string)
    requires AllSpace(w) && x != [] && !IsSpace(x[0])
    ensures TrimStart(w + x) == x
  {
    if w != [] {
      assert (w + x)[1..] == w[1..] + x;
      TrimStartPadded(w[1..], x);
    }
  }

  lemma {:induction false} TrimEndPadded(x: string, w: string)
    requires AllSpace(w) && x != [] && !IsSpace(x[|x| - 1])
    ensures TrimEnd(x + w) == x
  {
    if w != [] {
      assert (x + w)[..|x + w| - 1] == x + w[..|w| - 1];
      TrimEndPadded(x, w[..|w| - 1]);
    } else {
      assert x + w == x;
    }
  }

  /** Trimming removes exactly the white space around a word that starts and ends with other characters. */
  lemma TrimOfPadded(w1: string, x: string, w2: string)
    requires AllSpace(w1) && AllSpace(w2)
    requires x != [] && !IsSpace(x[0]) && !IsSpace(x[|x| - 1])
    ensures Trim(w1 + x + w2) == x
  {
    TrimEndPadded(w1 + x, w2);
    TrimStartPadded(w1, x);
  }

  /** White space alone trims to nothing. */
  lemma TrimAllSpace(s: string)
    requires AllSpace(s)
    ensures Trim(s) == []
  {
    TrimEndSpec(s);
  }

  /** `Trim(x)` is `x` without its white-space margins `x[..i]` and `x[j..]`. */
  lemma TrimMargins(x: string) returns (i: nat, j: nat)
    ensures i <= j <= |x| && Trim(x) == x[i..j] && AllSpace(x[..i]) && AllSpace(x[j..])
    ensures i == j ==> AllSpace(x)
    ensures i < j ==> !IsSpace(x[i]) && !IsSpace(x[j - 1])
  {
    TrimSlice(x);
    i, j :| 0 <= i <= j <= |x| && Trim(x) == x[i..j] && AllSpace(x[..i]) && AllSpace(x[j..]);
    if i == j {
      forall k | 0 <= k < |x| ensures IsSpace(x[k]) {
        if k < i { assert x[k] == x[..i][k]; } else { assert x[k] == x[j..][k - j]; }
      }
    } else {
      TrimEnds(x);
    }
  }

  /** One more white-space character in front does not change the trimmed text. */
  lemma TrimConsSpace(c: char, x: string)
    requires IsSpace(c)
    ensures Trim([c] + x) == Trim(x)
  {
    var i, j := TrimMargins(x);
    if i == j {
      assert AllSpace([c] + x);
      TrimAllSpace([c] + x);
    } else {
      assert [c] + x == ([c] + x[..i]) + x[i..j] + x[j..];
      assert Trim(([c] + x[..i]) + x[i..j] + x[j..]) == x[i..j] by {
        TrimOfPadded([c] + x[..i], x[i..j], x[j..]);
      }
    }
  }

  /** One more white-space character at the end does not change the trimmed text. */
  lemma TrimSnocSpace(x: string, c: char)
    requires IsSpace(c)
    ensures Trim(x + [c]) == Trim(x)
  {
    var i, j := TrimMargins(x);
    if i == j {
      assert AllSpace(x + [c]);
      TrimAllSpace(x + [c]);
    } else {
      assert x + [c] == x[..i] + x[i..j] + (x[j..] + [c]);
      assert Trim(x[..i] + x[i..j] + (x[j..] + [c])) == x[i..j] by {
        TrimOfPadded(x[..i], x[i..j], x[j..] + [c]);
      }
    }
  }

  /** The elements of `s` that satisfy `keep`, in order (`Array.prototype.filter`). */
  function Filter<T>(s: seq<T>, keep: T -> bool): (r: seq<T>)
    ensures |r| <= |s|
    ensures forall x :: x in r ==> x in s && keep(x)
    ensures forall x :: x in s && keep(x) ==> x in r
  {
    if s == [] then []
    else (if keep(s[0]) then [s[0]] else []) + Filter(s[1..], keep)
  }

  lemma FilterAppend<T>(a: seq<T>, b: seq<T>, keep: T -> bool)
    ensures Filter(a + b, keep) == Filter(a, keep) + Filter(b, keep)
  {
    if a == [] {
      assert a + b == b;
    } else {
      assert (a + b)[1..] == a[1..] + b;
      FilterAppend(a[1..], b, keep);
    }
  }

  /** One more element is kept or dropped on its own. */
  lemma FilterSnoc<T>(s: seq<T>, x: T, keep: T -> bool)
    ensures Filter(s + [x], keep) == Filter(s, keep) + (if keep(x) then [x] else [])
  {
    assert Filter([x], keep) == (if keep(x) then [x] else []) by {
      assert [x][1..] == [];
    }
    FilterAppend(s, [x], keep);
  }

  lemma {:induction false} FilterAllKept<T>(s: seq<T>, keep: T -> bool)
    requires forall i :: 0 <= i < |s| ==> keep(s[i])
    ensures Filter(s, keep) == s
  {
    if s != [] {
      FilterAllKept(s[1..], keep);
      assert [s[0]] + s[1..] == s;
    }
  }

  /** Only the element at `k` is kept. */
  lemma {:induction false} FilterOnlyAt<T>(s: seq<T>, k: nat, keep: T -> bool)
    requires k < |s| && keep(s[k])
    requires forall i :: 0 <= i < |s| && i != k ==> !keep(s[i])
    ensures Filter(s, keep) == [s[k]]
  {
    var t := s[1..];
    if k == 0 {
      forall i | 0 <= i < |t| ensures !keep(t[i]) {
        assert t[i] == s[i + 1];
      }
      FilterNoneKept(t, keep);
    } else {
      forall i | 0 <= i < |t| && i != k - 1 ensures !keep(t[i]) {
        assert t[i] == s[i + 1];
      }
      assert t[k - 1] == s[k];
      FilterOnlyAt(t, k - 1, keep);
    }
  }

  lemma {:induction false} FilterNoneKept<T>(s: seq<T>, keep: T -> bool)
    requires forall i :: 0 <= i < |s| ==> !keep(s[i])
    ensures Filter(s, keep) == []
  {
    if s != [] {
      FilterNoneKept(s[1..], keep);
    }
  }

  /** The number of elements of `s` that satisfy `keep`. */
  function Count<T>(s: seq<T>, keep: T -> bool): nat
  {
    if s == [] then 0 else (if keep(s[0]) then 1 else 0) + Count(s[1..], keep)
  }

  lemma FilterCount<T>(s: seq<T>, keep: T -> bool)
    ensures |Filter(s, keep)| == Count(s, keep)
  {
  }

  lemma {:induction false} FilterFilter<T>(s: seq<T>, p: T -> bool, q: T -> bool, pq: T -> bool)
    requires forall x :: pq(x) == (p(x) && q(x))
    ensures Filter(Filter(s, p), q) == Filter(s, pq)
  {
    if s != [] {
      var fp := Filter(s[1..], p);
      FilterFilter(s[1..], p, q, pq);
      if p(s[0]) {
        var f := [s[0]] + fp;
        assert Filter(s, p) == f;
        assert f[0] == s[0] && f[1..] == fp;
        assert Filter(f, q) == (if q(s[0]) then [s[0]] else []) + Filter(fp, q);
      } else {
        assert Filter(s, p) == [] + fp == fp;
      }
    }
  }

  /** Filtering by two predicates that agree everywhere gives the same result. */
  lemma {:induction false} FilterSame<T>(s: seq<T>, p: T -> bool, q: T -> bool)
    requires forall x :: p(x) == q(x)
    ensures Filter(s, p) == Filter(s, q)
  {
    if s != [] {
      FilterSame(s[1..], p, q);
    }
  }

  /** Filtering drops an element exactly when some element fails `keep`. */
  lemma {:induction false} FilterDrops<T>(s: seq<T>, keep: T -> bool)
    ensures |Filter(s, keep)| == |s| <==> forall i :: 0 <= i < |s| ==> keep(s[i])
  {
    if s != [] {
      FilterDrops(s[1..], keep);
      if forall i :: 0 <= i < |s| ==> keep(s[i]) {
        assert forall i :: 0 <= i < |s[1..]| ==> keep(s[1..][i]) by {
          forall i | 0 <= i < |s[1..]| ensures keep(s[1..][i]) {
            assert s[1..][i] == s[i + 1];
          }
        }
      } else {
        var i :| 0 <= i < |s| && !keep(s[i]);
        if i > 0 {
          assert s[1..][i - 1] == s[i];
        }
      }
    }
  }

  /** Every element satisfies either `keep` or its negation `drop`. */
  lemma {:induction false} CountComplement<T>(s: seq<T>, keep: T -> bool, drop: T -> bool)
    requires forall x :: drop(x) == !keep(x)
    ensures Count(s, keep) + Count(s, drop) == |s|
  {
    if s != [] {
      CountComplement(s[1..], keep, drop);
    }
  }

  /** Index of the last occurrence of `d` in `s`. */
  function LastIndexOfChar(s: string, d: char): (r: Option<nat>)
    ensures r.Some? <==> d in s
    ensures r.Some? ==> r.value < |s| && s[r.value] == d && d !in s[r.value + 1..]
  {
    if s == [] then None
    else if s[|s| - 1] == d then Some(|s| - 1)
    else
      var r := LastIndexOfChar(s[..|s| - 1], d);
      assert s == s[..|s| - 1] + [s[|s| - 1]];
      r
  }

  /** `s.split(d)` for a one-character separator `d`. */
  function Split(s: string, d: char): (r: seq<string>)
    ensures |r| >= 1
    ensures forall k :: 0 <= k < |r| ==> d !in r[k]
    decreases |s|
  {
    match LastIndexOfChar(s, d)
    case None => [s]
    case Some(i) => Split(s[..i], d) + [s[i + 1..]]
  }

  /** `ls.join(d)` */
  function Join(ls: seq<string>, d: char): (r: string)
  {
    if ls == [] then []
    else if |ls| == 1 then ls[0]
    else Join(ls[..|ls| - 1], d) + [d] + ls[|ls| - 1]
  }

  /** Splitting the text after one more line appends exactly that line. */
  lemma SplitAppendLine(s: string, d: char, line: string)
    requires d !in line
    ensures Split(s + [d] + line, d) == Split(s, d) + [line]
  {
    var t := s + [d] + line;
    var i := |s|;
    assert t[i] == d;
    assert t[i + 1..] == line;
    assert t[..i] == s;
  }

  lemma {:induction false} JoinSplit(s: string, d: char)
    ensures Join(Split(s, d), d) == s
    decreases |s|
  {
    match LastIndexOfChar(s, d)
    case None =>
    case Some(i) =>
      var left := Split(s[..i], d);
      JoinSplit(s[..i], d);
      assert Split(s, d) == left + [s[i + 1..]];
      assert (left + [s[i + 1..]])[..|left|] == left;
      assert s == s[..i] + [d] + s[i + 1..];
  }

  lemma {:induction false} SplitJoin(ls: seq<string>, d: char)
    requires |ls| >= 1
    requires forall k :: 0 <= k < |ls| ==> d !in ls[k]
    ensures Split(Join(ls, d), d) == ls
    decreases |ls|
  {
    if |ls| > 1 {
      var init := ls[..|ls| - 1];
      SplitJoin(init, d);
      SplitAppendLine(Join(init, d), d, ls[|ls| - 1]);
      assert init + [ls[|ls| - 1]] == ls;
    }
  }

  /** The last occurrence is the one with no separator after it. */
  lemma LastIndexOfCharIs(s: string, d: char, i: nat)
    requires i < |s| && s[i] == d && d !in s[i + 1..]
    ensures LastIndexOfChar(s, d) == Some(i)
  {
    var r := LastIndexOfChar(s, d);
    assert d in s by { assert s[i] == d; }
    var v := r.value;
    assert v >= i by {
      if v < i {
        assert false;
      }
    }
    assert v <= i by {
      if v > i {
        assert false;
      }
    }
  }

  /** Splitting at the last separator: the lines before it, then the text after it. */
  lemma SplitAtLast(t: string, d: char, i: nat)
    requires i < |t| && t[i] == d && d !in t[i + 1..]
    ensures Split(t, d) == Split(t[..i], d) + [t[i + 1..]]
  {
    LastIndexOfCharIs(t, d, i);
  }

  /** Lines joined and followed by one more line split back into all of them. */
  lemma SplitJoinAppend(ls: seq<string>, d: char, line: string)
    requires |ls| >= 1 && d !in line
    requires forall k :: 0 <= k < |ls| ==> d !in ls[k]
    ensures Split(Join(ls, d) + [d] + line, d) == ls + [line]
  {
    SplitJoin(ls, d);
    SplitAppendLine(Join(ls, d), d, line);
  }

  /** Splitting at a separator splits the two sides independently. */
  lemma {:induction false} SplitConcat(a: string, d: char, b: string)
    ensures Split(a + [d] + b, d) == Split(a, d) + Split(b, d)
    decreases |b|
  {
    if d !in b {
      SplitAppendLine(a, d, b);
    } else {
      var j := LastIndexOfChar(b, d).value;
      var t := a + [d] + b;
      var i := |a| + 1 + j;
      var left, tail := b[..j], b[j + 1..];
      assert t[..i] == a + [d] + left && t[i + 1..] == tail && t[i] == d;
      assert Split(t, d) == Split(a + [d] + left, d) + [tail] by {
        SplitAtLast(t, d, i);
      }
      assert Split(a + [d] + left, d) == Split(a, d) + Split(left, d) by {
        SplitConcat(a, d, left);
      }
      assert Split(b, d) == Split(left, d) + [tail] by {
        SplitAtLast(b, d, j);
      }
    }
  }

  /** A character other than the separator appended to the text extends its last line. */
  lemma SplitSnoc(t: string, d: char, c: char)
    requires c != d
    ensures var ls := Split(t, d);
      Split(t + [c], d) == ls[..|ls| - 1] + [ls[|ls| - 1] + [c]]
  {
    var u := t + [c];
    if d !in t {
      assert d !in u;
    } else {
      var i := LastIndexOfChar(t, d).value;
      var left := Split(t[..i], d);
      assert u[..i] == t[..i] && u[i + 1..] == t[i + 1..] + [c] && u[i] == d;
      assert Split(u, d) == left + [t[i + 1..] + [c]] by {
        SplitAtLast(u, d, i);
      }
      assert Split(t, d) == left + [t[i + 1..]] by {
        SplitAtLast(t, d, i);
      }
    }
  }

  /** A character other than the separator put in front of the text extends its first line. */
  lemma {:induction false} SplitCons(c: char, d: char, t: string)
    requires c != d
    ensures var ls := Split(t, d);
      Split([c] + t, d) == [[c] + ls[0]] + ls[1..]
    decreases |t|
  {
    var u := [c] + t;
    if d !in t {
      assert d !in u;
    } else {
      var i := LastIndexOfChar(t, d).value;
      var left, tail := Split(t[..i], d), t[i + 1..];
      var ls := Split(t, d);
      assert ls == left + [tail] by {
        SplitAtLast(t, d, i);
      }
      calc {
        Split(u, d);
      == { assert u[..i + 1] == [c] + t[..i] && u[i + 2..] == tail && u[i + 1] == d;
           SplitAtLast(u, d, i + 1); }
        Split([c] + t[..i], d) + [tail];
      == { SplitCons(c, d, t[..i]); }
        [[c] + left[0]] + left[1..] + [tail];
      == { assert ls[0] == left[0] && ls[1..] == left[1..] + [tail]; }
        [[c] + ls[0]] + ls[1..];
      }
    }
  }

  /** `s.substring(0, n)` */
  function Prefix(s: string, n: nat): (r: string)
    ensures |r| <= n && StartsWith(s, r)
    ensures |s| <= n ==> r == s
  {
    if |s| <= n then s else s[..n]
  }

  /** Decimal rendering of a natural number (`String(n)`). */
  function NatToString(n: nat): (r: string)
    ensures |r| >= 1
    ensures forall i :: 0 <= i < |r| ==> '0' <= r[i] <= '9'
  {
    if n < 10 then [DigitChar(n)] else NatToString(n / 10) + [DigitChar(n % 10)]
  }

  function DigitChar(d: nat): (c: char)
    requires d < 10
    ensures '0' <= c <= '9' && c as int - '0' as int == d
  {
    ('0' as int + d) as char
  }

  /** The value of a string of decimal digits. */
  function DigitsValue(s: string): nat
    requires forall i :: 0 <= i < |s| ==> '0' <= s[i] <= '9'
  {
    if s == [] then 0 else DigitsValue(s[..|s| - 1]) * 10 + (s[|s| - 1] as int - '0' as int)
  }

  lemma {:induction false} NatToStringValue(n: nat)
    ensures DigitsValue(NatToString(n)) == n
  {
    if n >= 10 {
      NatToStringValue(n / 10);
      var r := NatToString(n);
      assert r[..|r| - 1] == NatToString(n / 10);
    }
  }
}
