/**
 * The GitHub client `VaultAPI` (app.js:22-208): the response cache of `req`,
 * the fresh and cached reads of `readFile`, the SHA probe and PUT of
 * `writeFile`, and the listing calls `getTree` and `getMdFiles`.
 *
 * The network is a parameter: every call that would `fetch` takes the
 * `Response` the server gives, and the two readings of the clock in `req`
 * (before the lookup and after the reply arrives) are the parameters `now`
 * and `arrival`.
 */
module VaultApi {
  import opened Text
  import opened Listing
  import ContentCodec
  import Uri

  /** How long a cached reply is served, in milliseconds. */
  const CacheTtlMs: int := 90000

  const ApiRoot: string := "https://api.github.com/repos/"

  /** The parts of a JSON reply the dashboard reads. */
  datatype Document = Document(content: Option<string>, sha: Option<string>, tree: seq<TreeEntry>)

  /** What `fetch` yields: a reply with its status, or a rejected promise. */
  datatype Response = Response(status: int, body: Document) | NetworkFailure

  predicate IsOk(status: int)
  {
    200 <= status <= 299
  }

  /** The JSON body of a PUT to the contents API. */
  datatype PutBody = PutBody(message: string, content: string, sha: Option<string>)

  datatype ApiError = HttpError(status: int) | NetworkError | DecodeError

  datatype Result<T> = Success(value: T) | Failure(error: ApiError)

  /** A cached reply and the time it was stored (`{d, t}`). */
  datatype CacheEntry = CacheEntry(data: Document, storedAt: int)

  /** The absolute URL `req` fetches and uses as the cache key. */
  function RequestUrl(base: string, path: string): string
  {
    if StartsWith(path, "http") then path else base + "/" + path
  }

  /** What one uncached `fetch` gives `req`'s caller. */
  function Fetched(response: Response): (r: Result<Document>)
    ensures r.Success? <==> response.Response? && IsOk(response.status)
    ensures r.Success? ==> r.value == response.body
    ensures response.Response? && !IsOk(response.status) ==> r == Failure(HttpError(response.status))
  {
    match response
    case NetworkFailure => Failure(NetworkError)
    case Response(status, body) => if IsOk(status) then Success(body) else Failure(HttpError(status))
  }

  /** An entry stored at `storedAt` is still served at time `now`. */
  predicate Fresh(e: CacheEntry, now: int)
  {
    now - e.storedAt < CacheTtlMs
  }

  /** The result of one `req` call and the cache after it. */
  datatype Outcome = Outcome(result: Result<Document>, cache: map<string, CacheEntry>)

  /**
   * One call of `req(path, opts)` against the cache: a call without options
   * is answered from a fresh entry; otherwise the server answers, and a
   * successful reply to a call without options is stored at `arrival`.
   */
  function Serve(cache: map<string, CacheEntry>, url: string, opts: Option<PutBody>, now: int,
                 response: Response, arrival: int): (o: Outcome)
    ensures opts.None? && url in cache && Fresh(cache[url], now) ==>
      o == Outcome(Success(cache[url].data), cache)
    ensures !(opts.None? && url in cache && Fresh(cache[url], now)) ==> o.result == Fetched(response)
    ensures opts.Some? ==> o.cache == cache
    ensures o.cache == cache || (opts.None? && o.result.Success? && o.cache == cache[url := CacheEntry(o.result.value, arrival)])
  {
    if opts.None? && url in cache && Fresh(cache[url], now) then Outcome(Success(cache[url].data), cache)
    else
      var r := Fetched(response);
      if opts.None? && r.Success? then Outcome(r, cache[url := CacheEntry(r.value, arrival)])
      else Outcome(r, cache)
  }

  /**
   * A reply stored at time `t` is what a later call without options gets,
   * without asking the server, exactly while less than 90000 ms have passed.
   */
  lemma StoredEntryServedWhileFresh(cache: map<string, CacheEntry>, url: string, data: Document, t: int,
                                    now: int, arrival: int)
    ensures var o := Serve(cache[url := CacheEntry(data, t)], url, None, now, NetworkFailure, arrival);
      o.result == Success(data) <==> now - t < CacheTtlMs
  {
  }

  /** A call with options neither reads nor writes the cache. */
  lemma OptionsBypassCache(cache: map<string, CacheEntry>, url: string, body: PutBody, now: int,
                           response: Response, arrival: int)
    ensures Serve(cache, url, Some(body), now, response, arrival) == Outcome(Fetched(response), cache)
  {
  }

  /** After `clearCache` the next call goes to the server. */
  lemma ClearedCacheMisses(url: string, opts: Option<PutBody>, now: int, response: Response, arrival: int)
    ensures Serve(map[], url, opts, now, response, arrival).result == Fetched(response)
  {
  }

  /** A call only ever touches the entry for its own URL. */
  lemma OtherEntriesUnchanged(cache: map<string, CacheEntry>, url: string, opts: Option<PutBody>, now: int,
                              response: Response, arrival: int, other: string)
    requires other != url
    ensures var c := Serve(cache, url, opts, now, response, arrival).cache;
      (other in c <==> other in cache) && (other in cache ==> c[other] == cache[other])
  {
  }

  /** `d.content || ''` */
  function ContentOf(d: Document): string
  {
    match d.content
    case None => ""
    case Some(c) => c
  }

  /** The text `readFile` returns for a reply, or the error it throws. */
  function ReadResult(r: Result<Document>): (t: Result<string>)
    ensures r.Failure? ==> t == Failure(r.error)
    ensures r.Success? && ContentCodec.DecodeContent(ContentOf(r.value)).Ok? ==>
      t == Success(ContentCodec.DecodeContent(ContentOf(r.value)).text)
  {
    match r
    case Failure(e) => Failure(e)
    case Success(d) =>
      match ContentCodec.DecodeContent(ContentOf(d))
      case Ok(text) => Success(text)
      case Err(_) => Failure(DecodeError)
  }

  /** The SHA `writeFile` puts in the body: the probed one when the probe succeeded and gave a non-empty SHA. */
  function ProbedSha(probe: Response): (sha: Option<string>)
    ensures sha.Some? <==> probe.Response? && IsOk(probe.status) && probe.body.sha.Some? && probe.body.sha.value != ""
    ensures sha.Some? ==> sha == probe.body.sha
  {
    if probe.Response? && IsOk(probe.status) && probe.body.sha.Some? && probe.body.sha.value != "" then probe.body.sha
    else None
  }

  /** `message || 'Update ' + path` */
  function CommitMessage(message: string, path: string): (m: string)
    ensures m != ""
    ensures message != "" ==> m == message
  {
    if message != "" then message else "Update " + path
  }

  /** The body `writeFile` sends. */
  function WriteBody(path: string, text: string, message: string, probe: Response): PutBody
  {
    PutBody(CommitMessage(message, path), ContentCodec.EncodeContent(text), ProbedSha(probe))
  }

  /** What the server stores from a PUT body is the text that was written. */
  lemma WriteBodyCarriesText(path: string, text: string, message: string, probe: Response)
    ensures ContentCodec.DecodeContent(WriteBody(path, text, message, probe).content) == ContentCodec.Ok(text)
  {
    ContentCodec.ReadAfterWrite(text);
  }

  /**
   * A read of the document that a write stored returns the written text,
   * whether the read is fresh or served from the cache.
   */
  lemma ReadBackWrittenText(text: string, sha: Option<string>)
    ensures ReadResult(Success(Document(Some(ContentCodec.EncodeContent(text)), sha, []))) == Success(text)
  {
    ContentCodec.ReadAfterWrite(text);
  }

  class Client {
    var base: string
    var cache: map<string, CacheEntry>

    constructor (repo: string)
      ensures base == ApiRoot + repo && cache == map[]
    {
      base := ApiRoot + repo;
      cache := map[];
    }

    /** `req(path, opts)` */
    method Req(path: string, opts: Option<PutBody>, now: int, response: Response, arrival: int)
      returns (r: Result<Document>)
      modifies this
      ensures base == old(base)
      ensures var o := Serve(old(cache), RequestUrl(base, path), opts, now, response, arrival);
        r == o.result && cache == o.cache
    {
      var url := if StartsWith(path, "http") then path else base + "/" + path;
      if opts.None? && url in cache && now - cache[url].storedAt < CacheTtlMs {
        return Success(cache[url].data);
      }
      match response
      case NetworkFailure =>
        return Failure(NetworkError);
      case Response(status, body) =>
        if !IsOk(status) {
          return Failure(HttpError(status));
        }
        if opts.None? {
          cache := cache[url := CacheEntry(body, arrival)];
        }
        return Success(body);
    }

    /** `clearCache()` */
    method ClearCache()
      modifies this
      ensures base == old(base) && cache == map[]
    {
      cache := map[];
    }

    /**
     * `readFile(path, fresh)`: a fresh read (`freshRead`) fetches directly and leaves the
     * cache alone; any other read goes through `req`.
     */
    method ReadFile(path: string, freshRead: bool, now: int, response: Response, arrival: int)
      returns (r: Result<string>)
      modifies this
      ensures base == old(base)
      ensures freshRead ==> cache == old(cache) && r == ReadResult(Fetched(response))
      ensures !freshRead ==> var o := Serve(old(cache), RequestUrl(base, Uri.ContentsPath(path)), None, now, response, arrival);
        cache == o.cache && r == ReadResult(o.result)
    {
      var apiPath := Uri.ContentsPath(path);
      var d: Result<Document>;
      if freshRead {
        d := Fetched(response);
      } else {
        d := Req(apiPath, None, now, response, arrival);
      }
      match d
      case Failure(e) =>
        return Failure(e);
      case Success(doc) =>
        var decoded := ContentCodec.DecodeContent(ContentOf(doc));
        if decoded.Err? {
          return Failure(DecodeError);
        }
        return Success(decoded.text);
    }

    /**
     * `writeFile(path, text, message)`: probe the current SHA with a fresh
     * fetch (a failed probe means a new file), then PUT through `req`, which
     * neither reads nor fills the cache for a call with options.
     */
    method WriteFile(path: string, text: string, message: string, probe: Response, now: int,
                     response: Response, arrival: int)
      returns (sent: PutBody, r: Result<Document>)
      modifies this
      ensures base == old(base) && cache == old(cache)
      ensures sent == WriteBody(path, text, message, probe)
      ensures r == Fetched(response)
    {
      var apiPath := Uri.ContentsPath(path);
      var encoded := ContentCodec.EncodeContent(text);
      var sha: Option<string> := None;
      if probe.Response? && IsOk(probe.status) {
        sha := probe.body.sha;
      }
      if sha.Some? && sha.value == "" {
        sha := None;
      }
      sent := PutBody(if message != "" then message else "Update " + path, encoded, sha);
      r := Req(apiPath, Some(sent), now, response, arrival);
    }

    /** `getTree()`: the blobs of the recursive listing. */
    method GetTree(now: int, response: Response, arrival: int) returns (r: Result<seq<TreeEntry>>)
      modifies this
      ensures base == old(base)
      ensures var o := Serve(old(cache), RequestUrl(base, "git/trees/main?recursive=1"), None, now, response, arrival);
        cache == o.cache
        && (o.result.Failure? ==> r == Failure(o.result.error))
        && (o.result.Success? ==> r == Success(Blobs(o.result.value.tree)))
    {
      var d := Req("git/trees/main?recursive=1", None, now, response, arrival);
      match d
      case Failure(e) =>
        return Failure(e);
      case Success(doc) =>
        return Success(Blobs(doc.tree));
    }

    /** `getMdFiles()`: the notes of the listing. */
    method GetMdFiles(now: int, response: Response, arrival: int) returns (r: Result<seq<TreeEntry>>)
      modifies this
      ensures base == old(base)
      ensures var o := Serve(old(cache), RequestUrl(base, "git/trees/main?recursive=1"), None, now, response, arrival);
        cache == o.cache
        && (o.result.Failure? ==> r == Failure(o.result.error))
        && (o.result.Success? ==> r == Success(MdFiles(Blobs(o.result.value.tree))))
    {
      var tree := GetTree(now, response, arrival);
      match tree
      case Failure(e) =>
        return Failure(e);
      case Success(blobs) =>
        return Success(MdFiles(blobs));
    }
  }
}
