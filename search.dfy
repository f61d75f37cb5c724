/**
 * `search(keyword)` (app.js:162-183): first every note whose file name
 * contains the keyword, then, among the first 40 notes and while fewer than
 * 20 results are listed, every note not yet listed whose text contains it.
 *
 * `toLowerCase` is the parameter `lower`, and the texts `readFile` returns are
 * the map `texts`: a path missing from it is a read that failed, which the
 * search skips.
 */
module Search {
  import opened Text
  import opened Listing

  const MaxScanned: nat := 40
  const MaxResults: nat := 20
  const PreviewLength: nat := 100

  /** `'ファイル名'` and `'内容'` */
  datatype HitKind = FileName | Content

  datatype Hit = Hit(file: string, kind: HitKind, preview: string)

  /** `path.split('/').pop()` */
  function BaseName(path: string): string
  {
    var parts := Split(path, '/');
    parts[|parts| - 1]
  }

  /** The file name, without its first `.md`, lower-cased, contains `kw`. */
  predicate NameMatches(lower: string -> string, path: string, kw: string)
  {
    Contains(lower(ReplaceFirstLiteral(BaseName(path), ".md", "")), kw)
  }

  /** The first loop: one file-name hit per matching note, in listing order. */
  function NameHits(lower: string -> string, files: seq<TreeEntry>, kw: string): (r: seq<Hit>)
    ensures |r| <= |files|
    ensures forall i :: 0 <= i < |r| ==> r[i].kind == FileName && r[i].preview == r[i].file
  {
    if files == [] then []
    else
      var f := files[|files| - 1];
      NameHits(lower, files[..|files| - 1], kw) + (if NameMatches(lower, f.path, kw) then [Hit(f.path, FileName, f.path)] else [])
  }

  /** Some note of `files` has path `path`. */
  predicate InListing(files: seq<TreeEntry>, path: string)
  {
    exists i :: 0 <= i < |files| && files[i].path == path
  }

  lemma InListingSnoc(files: seq<TreeEntry>, path: string)
    requires files != []
    ensures InListing(files, path) <==> InListing(files[..|files| - 1], path) || files[|files| - 1].path == path
  {
    var init := files[..|files| - 1];
    if InListing(init, path) {
      var i :| 0 <= i < |init| && init[i].path == path;
      assert files[i] == init[i];
    }
    if InListing(files, path) {
      var i :| 0 <= i < |files| && files[i].path == path;
      if i < |init| {
        assert init[i] == files[i];
      }
    }
  }

  /** A note has a file-name hit exactly when its name matches. */
  lemma {:induction false} NameHitsExact(lower: string -> string, files: seq<TreeEntry>, kw: string, path: string)
    ensures Hit(path, FileName, path) in NameHits(lower, files, kw) <==> InListing(files, path) && NameMatches(lower, path, kw)
  {
    if files != [] {
      var init := files[..|files| - 1];
      var f := files[|files| - 1];
      NameHitsExact(lower, init, kw, path);
      InListingSnoc(files, path);
      var last := if NameMatches(lower, f.path, kw) then [Hit(f.path, FileName, f.path)] else [];
      assert NameHits(lower, files, kw) == NameHits(lower, init, kw) + last;
    }
  }

  /** `lines.find(l => l.toLowerCase().includes(kw)) || ''` */
  function FirstLineWith(lower: string -> string, lines: seq<string>, kw: string): (r: string)
    ensures r != "" ==> Contains(lower(r), kw) && r in lines
    ensures (forall i :: 0 <= i < |lines| ==> !Contains(lower(lines[i]), kw)) ==> r == ""
  {
    if lines == [] then ""
    else if Contains(lower(lines[0]), kw) then lines[0]
    else FirstLineWith(lower, lines[1..], kw)
  }

  /** The content hit for a note whose text `c` contains `kw`. */
  function ContentHit(lower: string -> string, path: string, c: string, kw: string): (h: Hit)
    ensures h.file == path && h.kind == Content && |h.preview| <= PreviewLength
  {
    Hit(path, Content, Prefix(Trim(FirstLineWith(lower, Split(c, '\n'), kw)), PreviewLength))
  }

  /** `results.some(r => r.file === path)` */
  predicate Listed(results: seq<Hit>, path: string)
  {
    exists i :: 0 <= i < |results| && results[i].file == path
  }

  /** A note of the second loop is added: not yet listed, read, and its text contains `kw`. */
  predicate ContentMatches(lower: string -> string, texts: map<string, string>, kw: string,
                           acc: seq<Hit>, path: string)
  {
    !Listed(acc, path) && path in texts && Contains(lower(texts[path]), kw)
  }

  /** The results after the second loop has looked at the note `path`. */
  function Next(lower: string -> string, texts: map<string, string>, kw: string, acc: seq<Hit>, path: string): seq<Hit>
  {
    if ContentMatches(lower, texts, kw, acc, path) then acc + [ContentHit(lower, path, texts[path], kw)] else acc
  }

  /** The second loop over `scan`, starting from the results `acc`. */
  function ContentScan(lower: string -> string, texts: map<string, string>, kw: string,
                       scan: seq<TreeEntry>, acc: seq<Hit>): seq<Hit>
    decreases |scan|
  {
    if scan == [] || |acc| >= MaxResults then acc
    else ContentScan(lower, texts, kw, scan[1..], Next(lower, texts, kw, acc, scan[0].path))
  }

  function Min(a: nat, b: nat): nat
  {
    if a <= b then a else b
  }

  /** What `search(keyword)` returns. */
  function SearchResults(lower: string -> string, files: seq<TreeEntry>, texts: map<string, string>,
                         keyword: string): seq<Hit>
  {
    var kw := lower(keyword);
    ContentScan(lower, texts, kw, files[..Min(MaxScanned, |files|)], NameHits(lower, files, kw))
  }

  /** The first loop of `search`. */
  method FileNameHits(lower: string -> string, files: seq<TreeEntry>, kw: string) returns (hits: seq<Hit>)
    ensures hits == NameHits(lower, files, kw)
  {
    hits := [];
    var i := 0;
    while i < |files|
      invariant 0 <= i <= |files|
      invariant hits == NameHits(lower, files[..i], kw)
    {
      var f := files[i];
      assert files[..i + 1][..i] == files[..i];
      if NameMatches(lower, f.path, kw) {
        hits := hits + [Hit(f.path, FileName, f.path)];
      } else {
        assert hits + [] == hits;
      }
      i := i + 1;
    }
    assert files[..|files|] == files;
  }

  /** `search(keyword)` over the note list `files`. */
  method SearchNotes(lower: string -> string, files: seq<TreeEntry>, texts: map<string, string>, keyword: string)
    returns (results: seq<Hit>)
    ensures results == SearchResults(lower, files, texts, keyword)
  {
    var kw := lower(keyword);
    results := FileNameHits(lower, files, kw);
    var n := Min(MaxScanned, |files|);
    ghost var names := results;
    var j := 0;
    while j < n && |results| < MaxResults
      invariant 0 <= j <= n
      invariant ContentScan(lower, texts, kw, files[j..n], results) == ContentScan(lower, texts, kw, files[..n], names)
    {
      var f := files[j];
      assert files[j..n][1..] == files[j + 1..n];
      ghost var before := results;
      assert ContentScan(lower, texts, kw, files[j..n], before)
        == ContentScan(lower, texts, kw, files[j + 1..n], Next(lower, texts, kw, before, f.path));
      if ContentMatches(lower, texts, kw, results, f.path) {
        var c := texts[f.path];
        var line := FirstLineWith(lower, Split(c, '\n'), kw);
        results := results + [Hit(f.path, Content, Prefix(Trim(line), PreviewLength))];
      }
      assert results == Next(lower, texts, kw, before, f.path);
      j := j + 1;
    }
    assert files[..n] == files[0..n];
  }

  /** The results start with the file-name hits, which the second loop only extends. */
  lemma {:induction false} ContentScanExtends(lower: string -> string, texts: map<string, string>, kw: string,
                                              scan: seq<TreeEntry>, acc: seq<Hit>)
    ensures var r := ContentScan(lower, texts, kw, scan, acc);
      |acc| <= |r| && r[..|acc|] == acc
    decreases |scan|
  {
    if scan != [] && |acc| < MaxResults {
      var acc1 := Next(lower, texts, kw, acc, scan[0].path);
      ContentScanExtends(lower, texts, kw, scan[1..], acc1);
      assert acc1[..|acc|] == acc;
    }
  }

  /** The second loop adds nothing once 20 results are listed, and stops adding at 20. */
  lemma {:induction false} ContentScanBound(lower: string -> string, texts: map<string, string>, kw: string,
                                            scan: seq<TreeEntry>, acc: seq<Hit>)
    ensures var r := ContentScan(lower, texts, kw, scan, acc);
      |r| <= (if |acc| >= MaxResults then |acc| else MaxResults)
    decreases |scan|
  {
    if scan != [] && |acc| < MaxResults {
      ContentScanBound(lower, texts, kw, scan[1..], Next(lower, texts, kw, acc, scan[0].path));
    }
  }

  /** `h` is the hit the second loop makes for `scan[i]` after the results `before`. */
  predicate AddedFor(lower: string -> string, texts: map<string, string>, kw: string,
                     scan: seq<TreeEntry>, i: int, before: seq<Hit>, h: Hit)
  {
    0 <= i < |scan| && ContentMatches(lower, texts, kw, before, scan[i].path)
    && h == ContentHit(lower, scan[i].path, texts[scan[i].path], kw)
  }

  /**
   * Every hit the second loop adds is the content hit of a scanned note that
   * was read, whose text contains the keyword, and that no earlier result
   * lists.
   */
  lemma {:induction false} ContentHitsSound(lower: string -> string, texts: map<string, string>, kw: string,
                                            scan: seq<TreeEntry>, acc: seq<Hit>, j: nat)
    requires |acc| <= j < |ContentScan(lower, texts, kw, scan, acc)|
    ensures var r := ContentScan(lower, texts, kw, scan, acc);
      exists i :: AddedFor(lower, texts, kw, scan, i, r[..j], r[j])
    decreases |scan|
  {
    var r := ContentScan(lower, texts, kw, scan, acc);
    assert scan != [] && |acc| < MaxResults;
    var acc1 := Next(lower, texts, kw, acc, scan[0].path);
    assert r == ContentScan(lower, texts, kw, scan[1..], acc1);
    ContentScanExtends(lower, texts, kw, scan[1..], acc1);
    if j < |acc1| {
      assert r[..j] == acc1[..j] == acc;
      assert AddedFor(lower, texts, kw, scan, 0, r[..j], r[j]);
    } else {
      ContentHitsSound(lower, texts, kw, scan[1..], acc1, j);
      var i :| AddedFor(lower, texts, kw, scan[1..], i, r[..j], r[j]);
      assert scan[1..][i] == scan[i + 1];
      assert AddedFor(lower, texts, kw, scan, i + 1, r[..j], r[j]);
    }
  }

  /**
   * While fewer than 20 results are listed, no scanned note whose text
   * contains the keyword is missed.
   */
  lemma {:induction false} ContentScanComplete(lower: string -> string, texts: map<string, string>, kw: string,
                                               scan: seq<TreeEntry>, acc: seq<Hit>, i: nat)
    requires i < |scan| && |ContentScan(lower, texts, kw, scan, acc)| < MaxResults
    requires scan[i].path in texts && Contains(lower(texts[scan[i].path]), kw)
    ensures Listed(ContentScan(lower, texts, kw, scan, acc), scan[i].path)
    decreases |scan|
  {
    var r := ContentScan(lower, texts, kw, scan, acc);
    var path := scan[0].path;
    ContentScanExtends(lower, texts, kw, scan, acc);
    var acc1 := Next(lower, texts, kw, acc, path);
    assert r == ContentScan(lower, texts, kw, scan[1..], acc1);
    if i == 0 {
      ContentScanExtends(lower, texts, kw, scan[1..], acc1);
      if Listed(acc, path) {
        var k :| 0 <= k < |acc| && acc[k].file == path;
        assert r[k] == acc[k];
      } else {
        assert r[|acc|] == acc1[|acc|];
      }
    } else {
      assert scan[1..][i - 1] == scan[i];
      ContentScanComplete(lower, texts, kw, scan[1..], acc1, i - 1);
    }
  }

  /** The search's results: file-name hits first, at most 20 entries unless the names alone give more. */
  lemma SearchShape(lower: string -> string, files: seq<TreeEntry>, texts: map<string, string>, keyword: string)
    ensures var names := NameHits(lower, files, lower(keyword));
      var r := SearchResults(lower, files, texts, keyword);
      && |names| <= |r| && r[..|names|] == names
      && |r| <= (if |names| >= MaxResults then |names| else MaxResults)
  {
    var kw := lower(keyword);
    var scan := files[..Min(MaxScanned, |files|)];
    ContentScanExtends(lower, texts, kw, scan, NameHits(lower, files, kw));
    ContentScanBound(lower, texts, kw, scan, NameHits(lower, files, kw));
  }

  /** No two hits name the same note. */
  predicate DistinctFiles(r: seq<Hit>)
  {
    forall i, j :: 0 <= i < j < |r| ==> r[i].file != r[j].file
  }

  /** No two notes of the listing share a path. */
  predicate DistinctPaths(files: seq<TreeEntry>)
  {
    forall i, j :: 0 <= i < j < |files| ==> files[i].path != files[j].path
  }

  /** Each note of a listing with distinct paths gets at most one file-name hit. */
  lemma {:induction false} NameHitsDistinct(lower: string -> string, files: seq<TreeEntry>, kw: string)
    requires DistinctPaths(files)
    ensures DistinctFiles(NameHits(lower, files, kw))
  {
    if files != [] {
      var n := |files| - 1;
      var init := files[..n];
      var f := files[n];
      var before := NameHits(lower, init, kw);
      var r := NameHits(lower, files, kw);
      assert DistinctPaths(init) by {
        forall i, j | 0 <= i < j < |init| ensures init[i].path != init[j].path {
          assert init[i] == files[i] && init[j] == files[j];
        }
      }
      NameHitsDistinct(lower, init, kw);
      assert r[..|before|] == before;
      forall i, j | 0 <= i < j < |r| ensures r[i].file != r[j].file {
        if j >= |before| {
          var h := before[i];
          assert r[i] == h && r[j].file == f.path;
          assert h == Hit(h.file, FileName, h.file);
          NameHitsExact(lower, init, kw, h.file);
          var m :| 0 <= m < |init| && init[m].path == h.file;
          assert init[m] == files[m];
        } else {
          assert r[i] == before[i] && r[j] == before[j];
        }
      }
    }
  }

  /** The second loop adds a note only when no result lists it yet. */
  lemma NextDistinct(lower: string -> string, texts: map<string, string>, kw: string, acc: seq<Hit>, path: string)
    requires DistinctFiles(acc)
    ensures DistinctFiles(Next(lower, texts, kw, acc, path))
  {
    var r := Next(lower, texts, kw, acc, path);
    if ContentMatches(lower, texts, kw, acc, path) {
      forall i, j | 0 <= i < j < |r| ensures r[i].file != r[j].file {
        assert r[i] == acc[i];
        if j < |acc| {
          assert r[j] == acc[j];
        } else {
          assert r[j].file == path;
        }
      }
    }
  }

  lemma {:induction false} ContentScanDistinct(lower: string -> string, texts: map<string, string>, kw: string,
                                               scan: seq<TreeEntry>, acc: seq<Hit>)
    requires DistinctFiles(acc)
    ensures DistinctFiles(ContentScan(lower, texts, kw, scan, acc))
    decreases |scan|
  {
    if scan != [] && |acc| < MaxResults {
      NextDistinct(lower, texts, kw, acc, scan[0].path);
      ContentScanDistinct(lower, texts, kw, scan[1..], Next(lower, texts, kw, acc, scan[0].path));
    }
  }

  /** Over a listing with distinct paths, no note appears twice in the results. */
  lemma SearchNoRepeats(lower: string -> string, files: seq<TreeEntry>, texts: map<string, string>, keyword: string)
    requires DistinctPaths(files)
    ensures DistinctFiles(SearchResults(lower, files, texts, keyword))
  {
    var kw := lower(keyword);
    NameHitsDistinct(lower, files, kw);
    ContentScanDistinct(lower, texts, kw, files[..Min(MaxScanned, |files|)], NameHits(lower, files, kw));
  }
}
