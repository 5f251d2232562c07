/** The Huaban client: request headers, the board and pin-list endpoints, the
    cursor pagination over a board's pins, and the asset store that derives a
    file name for a pin and downloads it unless the file is already there.

    The network is a parameter: a `Remote` answers each (url, headers) request
    with a fixed reply, so one run sees a deterministic server. */
module Downloader {
  import opened Wrappers
  import opened Strings
  import opened Files

  const BaseUrl: string := "https://huaban.com/v3"
  const ImgBaseUrl: string := "https://gd-hbimg.huaban.com"
  const UserAgent: string := "Mozilla/5.0 (Windows NT 10.0; Win64; x64) AppleWebKit/537.36 (KHTML, like Gecko) Chrome/120.0.0.0 Safari/537.36"
  /** Pins requested per page; a shorter page is the last one. */
  const PageSize: nat := 100
  /** Characters of the description kept in a file name. */
  const NameLimit: nat := 50

  type Headers = map<string, string>

  /** Python truthiness of an optional string: present and non-empty. */
  predicate Truthy(s: Option<string>) {
    s.Some? && s.value != ""
  }

  // ---------------------------------------------------------------------
  // Entities decoded from the API

  /** The `file` object of a pin; `key` and `type` may be missing. */
  datatype FileInfo = FileInfo(key: Option<string>, mimeType: Option<string>)

  /** A pin as listed by the board endpoint. */
  datatype Pin = Pin(pinId: nat, file: Option<FileInfo>, rawText: Option<string>, source: Option<string>)

  /** A board's metadata, as returned under the `board` key. */
  datatype Board = Board(
    title: string, description: Option<string>, pinCount: nat,
    owner: string, followCount: Option<nat>, updatedAt: int)

  /** One JSON request: either the transport failed (connection error,
      non-2xx status, undecodable body), or a body arrived, which may or may
      not hold the expected top-level field; `dump` is its JSON rendering. */
  datatype Reply<T> = TransportError(detail: string) | Body(field: Option<T>, dump: string)

  /** The remote side: the two JSON endpoints and the image CDN. */
  datatype Remote = Remote(
    boards: (string, Headers) -> Reply<Board>,
    pins: (string, Headers) -> Reply<seq<Pin>>,
    images: (string, Headers) -> Option<seq<Byte>>)

  datatype ApiError = Transport(detail: string) | MissingField(dump: string)

  /** `str(e)` of the exception raised for a failed JSON request. */
  function ApiErrorText(e: ApiError): string {
    match e
    case Transport(d) => d
    case MissingField(dump) => "API返回错误: " + dump
  }

  /** `raise_for_status()`, then the lookup of the expected field: the
      field's value unchanged when a body holds it, otherwise the transport
      failure or the missing-field error with the body's dump. */
  function Decode<T>(reply: Reply<T>): (r: Result<T, ApiError>)
    ensures r.Success? <==> reply.Body? && reply.field.Some?
    ensures r.Success? ==> r.value == reply.field.value
    ensures reply.TransportError? ==> r == Failure(Transport(reply.detail))
    ensures reply.Body? && reply.field.None? ==> r == Failure(MissingField(reply.dump))
  {
    match reply
    case TransportError(d) => Failure(Transport(d))
    case Body(None, dump) => Failure(MissingField(dump))
    case Body(Some(v), _) => Success(v)
  }

  // ---------------------------------------------------------------------
  // Request headers

  /** `_get_headers(cookie)`: four fixed headers, plus `Cookie` exactly when
      the cookie is truthy, forwarded verbatim. */
  function GetHeaders(cookie: Option<string>): (h: Headers)
    ensures h.Keys == {"Accept", "User-Agent", "Referer", "Origin"} + (if Truthy(cookie) then {"Cookie"} else {})
    ensures h["Accept"] == "application/json, text/plain, */*"
    ensures h["User-Agent"] == UserAgent
    ensures h["Referer"] == "https://huaban.com/"
    ensures h["Origin"] == "https://huaban.com"
    ensures "Cookie" in h ==> cookie.Some? && h["Cookie"] == cookie.value
  {
    var fixed := map[
      "Accept" := "application/json, text/plain, */*",
      "User-Agent" := UserAgent,
      "Referer" := "https://huaban.com/",
      "Origin" := "https://huaban.com"];
    if Truthy(cookie) then fixed["Cookie" := cookie.value] else fixed
  }

  /** An empty cookie is treated like none: no `Cookie` header is sent. */
  lemma EmptyCookieIsNone()
    ensures GetHeaders(Some("")) == GetHeaders(None)
    ensures "Cookie" !in GetHeaders(None)
  {
  }

  // ---------------------------------------------------------------------
  // Board metadata

  /** The board endpoint: under the API base, naming the board. */
  function BoardInfoUrl(boardId: string): (u: string)
    ensures |u| > |BaseUrl + "/boards/" + boardId| && u[..|BaseUrl + "/boards/" + boardId|] == BaseUrl + "/boards/" + boardId
  {
    BaseUrl + "/boards/" + boardId + "?fields=board:BOARD_DETAIL"
  }

  /** `get_board_info`: one request; the `board` object unchanged, or the
      failure of the request. */
  function GetBoardInfo(remote: Remote, boardId: string, cookie: Option<string>): (r: Result<Board, ApiError>)
    ensures var reply := remote.boards(BoardInfoUrl(boardId), GetHeaders(cookie));
      && (r.Success? <==> reply.Body? && reply.field.Some?)
      && (r.Success? ==> r.value == reply.field.value)
      && (reply.TransportError? ==> r == Failure(Transport(reply.detail)))
      && (reply.Body? && reply.field.None? ==> r == Failure(MissingField(reply.dump)))
  {
    Decode(remote.boards(BoardInfoUrl(boardId), GetHeaders(cookie)))
  }

  // ---------------------------------------------------------------------
  // Cursor pagination

  /** The pin-list URL; `cursor` is the `pin_id` of the last pin seen. */
  function PinsUrl(boardId: string, cursor: Option<nat>): (u: string)
    ensures |u| > |BaseUrl + "/boards/" + boardId| && u[..|BaseUrl + "/boards/" + boardId|] == BaseUrl + "/boards/" + boardId
  {
    BaseUrl + "/boards/" + boardId + "/pins?limit=" + Decimal(PageSize)
      + "&fields=pins:PIN|board:BOARD_DETAIL|check"
      + (if cursor.Some? then "&max=" + Decimal(cursor.value) else "")
  }

  /** A cursor request is the first request with `&max=<pin_id>` appended,
      and the pin id can be read back from it: distinct cursors give
      distinct URLs. */
  lemma CursorInUrl(boardId: string, x: nat, y: nat)
    ensures PinsUrl(boardId, Some(x)) == PinsUrl(boardId, None) + "&max=" + Decimal(x)
    ensures PinsUrl(boardId, Some(x)) == PinsUrl(boardId, Some(y)) ==> x == y
  {
    var prefix := PinsUrl(boardId, None) + "&max=";
    if PinsUrl(boardId, Some(x)) == PinsUrl(boardId, Some(y)) {
      assert Decimal(x) == (prefix + Decimal(x))[|prefix|..];
      assert Decimal(y) == (prefix + Decimal(y))[|prefix|..];
      DecimalInjective(x, y);
    }
  }

  /** The cursor sent after a page: the id of its last pin (the loop only
      asks for it after a non-empty page). */
  function NextCursor(page: seq<Pin>): Option<nat> {
    if |page| == 0 then None else Some(page[|page| - 1].pinId)
  }

  datatype ListError = ApiFailure(cause: ApiError) | PageLimit

  /** The server seen through the cursor: the decoded answer to each
      pin-list request. */
  type PageSource = Option<nat> -> Result<seq<Pin>, ApiError>

  /** The page source of a board: request `PinsUrl(boardId, cursor)` with
      `headers` and decode the `pins` field. */
  function PagesOf(remote: Remote, boardId: string, headers: Headers): PageSource {
    cursor => Decode(remote.pins(PinsUrl(boardId, cursor), headers))
  }

  /** The pages `get_board_pins` collects, starting from `cursor`, with at
      most `fuel` requests. An empty page ends the listing and is not kept; a
      short page is kept and ends it; a full page is kept and the next request
      carries its last pin's id. A failed request fails the whole listing. */
  function ListPages(source: PageSource, cursor: Option<nat>, fuel: nat): (r: Result<seq<seq<Pin>>, ListError>)
    ensures fuel == 0 ==> r == Failure(PageLimit)
    decreases fuel
  {
    if fuel == 0 then Failure(PageLimit)
    else
      match source(cursor)
      case Failure(e) => Failure(ApiFailure(e))
      case Success(page) =>
        if |page| == 0 then Success([])
        else if |page| < PageSize then Success([page])
        else
          match ListPages(source, NextCursor(page), fuel - 1)
          case Failure(e) => Failure(e)
          case Success(rest) => Success([page] + rest)
  }

  /** The pins of a sequence of pages, in arrival order. */
  function Concat(pages: seq<seq<Pin>>): seq<Pin> {
    if pages == [] then [] else pages[0] + Concat(pages[1..])
  }

  lemma {:induction false} ConcatSnoc(pages: seq<seq<Pin>>, page: seq<Pin>)
    ensures Concat(pages + [page]) == Concat(pages) + page
  {
    if pages != [] {
      assert (pages + [page])[1..] == pages[1..] + [page];
      ConcatSnoc(pages[1..], page);
    } else {
      assert Concat([page]) == page + Concat([]);
    }
  }

  /** The listing a caller sees: all pins of all pages, or the failure. */
  function Flatten(r: Result<seq<seq<Pin>>, ListError>): Result<seq<Pin>, ListError> {
    match r
    case Success(pages) => Success(Concat(pages))
    case Failure(e) => Failure(e)
  }

  /** Pages already collected in front of the rest of a listing. */
  function Prepend(seen: seq<seq<Pin>>, r: Result<seq<seq<Pin>>, ListError>): Result<seq<seq<Pin>>, ListError> {
    match r
    case Success(rest) => Success(seen + rest)
    case Failure(e) => Failure(e)
  }

  /** One full page received: it moves from the rest of the listing to the
      pages already seen. */
  lemma PrependFullPage(source: PageSource, seen: seq<seq<Pin>>, cursor: Option<nat>, page: seq<Pin>, fuel: nat)
    requires fuel > 0 && source(cursor) == Success(page) && |page| >= PageSize
    ensures Prepend(seen, ListPages(source, cursor, fuel))
      == Prepend(seen + [page], ListPages(source, NextCursor(page), fuel - 1))
  {
    var rest := ListPages(source, NextCursor(page), fuel - 1);
    if rest.Success? {
      assert seen + ([page] + rest.value) == (seen + [page]) + rest.value;
    }
  }

  lemma PrependNothing(r: Result<seq<seq<Pin>>, ListError>)
    ensures Prepend([], r) == r
  {
    if r.Success? {
      assert [] + r.value == r.value;
    }
  }

  /** The `pin_id` cursor of `last_pin`, absent on the first request. */
  function CursorOf(lastPin: Option<Pin>): Option<nat> {
    if lastPin.Some? then Some(lastPin.value.pinId) else None
  }

  /** `get_board_pins`: the `while True` loop that requests page after page,
      extends `all_pins` and remembers the last pin as the next cursor. */
  method GetBoardPins(remote: Remote, boardId: string, cookie: Option<string>, fuel: nat) returns (r: Result<seq<Pin>, ListError>)
    ensures r == Flatten(ListPages(PagesOf(remote, boardId, GetHeaders(cookie)), None, fuel))
  {
    var headers := GetHeaders(cookie);
    ghost var source := PagesOf(remote, boardId, headers);
    var allPins: seq<Pin> := [];
    var lastPin: Option<Pin> := None;
    ghost var seen: seq<seq<Pin>> := [];
    var n := 0;
    PrependNothing(ListPages(source, None, fuel));
    while n < fuel
      invariant n <= fuel
      invariant allPins == Concat(seen)
      invariant ListPages(source, None, fuel)
        == Prepend(seen, ListPages(source, CursorOf(lastPin), fuel - n))
      decreases fuel - n
    {
      var url := PinsUrl(boardId, CursorOf(lastPin));
      var reply := remote.pins(url, headers);
      assert Decode(reply) == source(CursorOf(lastPin));
      match Decode(reply) {
        case Failure(e) =>
          return Failure(ApiFailure(e));
        case Success(pins) =>
          if |pins| == 0 {
            assert seen + [] == seen;
            return Success(allPins);
          }
          ConcatSnoc(seen, pins);
          allPins := allPins + pins;
          if |pins| < PageSize {
            return Success(allPins);
          }
          PrependFullPage(source, seen, CursorOf(lastPin), pins, fuel - n);
          lastPin := Some(pins[|pins| - 1]);
          seen := seen + [pins];
          n := n + 1;
      }
    }
    return Failure(PageLimit);
  }

  /** The cursor of the k-th request of a listing that started at `start`
      and received `pages`. */
  function CursorBefore(start: Option<nat>, pages: seq<seq<Pin>>, k: nat): Option<nat>
    requires k <= |pages|
  {
    if k == 0 then start else NextCursor(pages[k - 1])
  }

  /** Every page of `pages` is non-empty and is what the server answered to
      the request carrying the cursor rule's cursor. */
  ghost predicate Received(source: PageSource, start: Option<nat>, pages: seq<seq<Pin>>) {
    && (forall k :: 0 <= k < |pages| ==> |pages[k]| > 0)
    && (forall k :: 0 <= k < |pages| ==>
          source(CursorBefore(start, pages, k)) == Success(pages[k]))
  }

  /** The listing has nothing left to ask: its last page was short. */
  predicate EndsShort(pages: seq<seq<Pin>>) {
    |pages| > 0 && |pages[|pages| - 1]| < PageSize
  }

  /** A complete listing: pages received under the cursor rule, all full but
      the last, and, unless the last was short, an empty page answered to the
      next request. */
  ghost predicate IsListing(source: PageSource, start: Option<nat>, pages: seq<seq<Pin>>) {
    && Received(source, start, pages)
    && (forall k :: 0 <= k < |pages| - 1 ==> |pages[k]| >= PageSize)
    && (!EndsShort(pages) ==>
          source(CursorBefore(start, pages, |pages|)) == Success([]))
  }

  /** How many requests a listing takes. */
  function Requests(pages: seq<seq<Pin>>): nat {
    if EndsShort(pages) then |pages| else |pages| + 1
  }

  /** Dropping the first page of a received sequence leaves one received
      from the first page's cursor. */
  lemma ReceivedTail(source: PageSource, start: Option<nat>, pages: seq<seq<Pin>>)
    requires |pages| > 0 && Received(source, start, pages)
    ensures source(start) == Success(pages[0])
    ensures Received(source, NextCursor(pages[0]), pages[1..])
    ensures CursorBefore(start, pages, |pages|) == CursorBefore(NextCursor(pages[0]), pages[1..], |pages| - 1)
  {
    var rest := pages[1..];
    assert CursorBefore(start, pages, 0) == start;
    forall k | 0 <= k < |rest|
      ensures source(CursorBefore(NextCursor(pages[0]), rest, k)) == Success(rest[k])
    {
      assert CursorBefore(NextCursor(pages[0]), rest, k) == CursorBefore(start, pages, k + 1);
    }
  }

  /** A page answered at `start` followed by pages received from its cursor
      is a received sequence. */
  lemma ReceivedCons(source: PageSource, start: Option<nat>, page: seq<Pin>, rest: seq<seq<Pin>>)
    requires |page| > 0 && source(start) == Success(page)
    requires Received(source, NextCursor(page), rest)
    ensures Received(source, start, [page] + rest)
    ensures CursorBefore(start, [page] + rest, |rest| + 1) == CursorBefore(NextCursor(page), rest, |rest|)
  {
    var pages := [page] + rest;
    forall k | 0 <= k < |pages|
      ensures source(CursorBefore(start, pages, k)) == Success(pages[k])
    {
      if k > 0 {
        assert pages[k] == rest[k - 1];
        assert CursorBefore(start, pages, k) == CursorBefore(NextCursor(page), rest, k - 1);
      }
    }
  }

  /** What `ListPages` returns is a complete listing within the fuel. */
  lemma {:induction false} ListPagesIsListing(source: PageSource, start: Option<nat>, fuel: nat)
    ensures var r := ListPages(source, start, fuel);
      r.Success? ==> IsListing(source, start, r.value) && Requests(r.value) <= fuel
    decreases fuel
  {
    var r := ListPages(source, start, fuel);
    if fuel > 0 && r.Success? {
      var page := source(start).value;
      if |page| == 0 {
        assert r.value == [];
        assert CursorBefore(start, [], 0) == start;
      } else if |page| < PageSize {
        assert r.value == [page];
        assert CursorBefore(start, [page], 0) == start;
      } else {
        var rest := ListPages(source, NextCursor(page), fuel - 1).value;
        ListPagesIsListing(source, NextCursor(page), fuel - 1);
        FullPageExtendsListing(source, start, page, rest);
        assert r.value == [page] + rest;
      }
    }
  }

  /** A full page answered at `start`, followed by a complete listing from
      its cursor, is a complete listing from `start` with one more request. */
  lemma FullPageExtendsListing(source: PageSource, start: Option<nat>, page: seq<Pin>, rest: seq<seq<Pin>>)
    requires |page| >= PageSize && source(start) == Success(page)
    requires IsListing(source, NextCursor(page), rest)
    ensures IsListing(source, start, [page] + rest)
    ensures Requests([page] + rest) == Requests(rest) + 1
  {
    var pages := [page] + rest;
    ReceivedCons(source, start, page, rest);
    assert pages[1..] == rest;
    assert EndsShort(pages) == EndsShort(rest);
    forall k | 0 <= k < |pages| - 1 ensures |pages[k]| >= PageSize {
      if k > 0 {
        assert pages[k] == rest[k - 1];
      }
    }
  }

  /** After a full first page, the rest of a complete listing is a complete
      listing from that page's cursor, one request shorter. */
  lemma ListingTail(source: PageSource, start: Option<nat>, pages: seq<seq<Pin>>)
    requires IsListing(source, start, pages)
    requires |pages| > 0 && |pages[0]| >= PageSize
    ensures IsListing(source, NextCursor(pages[0]), pages[1..])
    ensures Requests(pages) == Requests(pages[1..]) + 1
  {
    var rest := pages[1..];
    ReceivedTail(source, start, pages);
    assert EndsShort(pages) == EndsShort(rest);
    forall k | 0 <= k < |rest| - 1 ensures |rest[k]| >= PageSize {
      assert rest[k] == pages[k + 1];
    }
  }

  /** The first request of a complete listing within the fuel: it is made,
      and answered with the first page, or with an empty page when there
      is none; a short first page is the only one. */
  lemma ListingHead(source: PageSource, start: Option<nat>, pages: seq<seq<Pin>>, fuel: nat)
    requires IsListing(source, start, pages)
    requires Requests(pages) <= fuel
    ensures fuel > 0
    ensures pages == [] ==> source(start) == Success([])
    ensures pages != [] ==> source(start) == Success(pages[0]) && |pages[0]| > 0
    ensures pages != [] && |pages[0]| < PageSize ==> pages == [pages[0]]
  {
    assert CursorBefore(start, pages, 0) == start;
  }

  /** Conversely, a complete listing within the fuel is what `ListPages`
      returns, so the listing is determined by the server's answers. */
  lemma {:induction false} ListingIsListPages(source: PageSource, start: Option<nat>, pages: seq<seq<Pin>>, fuel: nat)
    requires IsListing(source, start, pages)
    requires Requests(pages) <= fuel
    ensures ListPages(source, start, fuel) == Success(pages)
    decreases pages
  {
    ListingHead(source, start, pages, fuel);
    if pages != [] && |pages[0]| >= PageSize {
      var rest := pages[1..];
      ListingTail(source, start, pages);
      ListingIsListPages(source, NextCursor(pages[0]), rest, fuel - 1);
      assert pages == [pages[0]] + rest;
    }
  }

  /** A failed request after any number of full pages fails the whole
      listing: the pins gathered so far are not returned. */
  lemma {:induction false} FailedRequestLosesListing(source: PageSource, start: Option<nat>, pages: seq<seq<Pin>>, fuel: nat)
    requires Received(source, start, pages)
    requires forall k :: 0 <= k < |pages| ==> |pages[k]| >= PageSize
    requires source(CursorBefore(start, pages, |pages|)).Failure?
    requires |pages| < fuel
    ensures ListPages(source, start, fuel)
      == Failure(ApiFailure(source(CursorBefore(start, pages, |pages|)).error))
    decreases pages
  {
    if pages == [] {
      assert CursorBefore(start, pages, 0) == start;
    } else {
      ReceivedTail(source, start, pages);
      FailedRequestLosesListing(source, NextCursor(pages[0]), pages[1..], fuel - 1);
    }
  }

  // ---------------------------------------------------------------------
  // Asset store: file name derivation

  /** Characters the file name filter keeps: `c.isalnum() or c in (' ', '-', '_')`.
      `isAlnum` stands for Python's Unicode-aware `str.isalnum`. */
  predicate Allowed(isAlnum: char -> bool, c: char) {
    isAlnum(c) || c == ' ' || c == '-' || c == '_'
  }

  /** `s` can be obtained from `t` by deleting characters. */
  ghost predicate IsSubsequence(s: string, t: string)
    decreases |t|
  {
    if s == [] then true
    else if t == [] then false
    else if s[0] == t[0] then IsSubsequence(s[1..], t[1..])
    else IsSubsequence(s, t[1..])
  }

  /** `"".join(c for c in s if ...)`: the allowed characters of `s`, in order. */
  function KeepAllowed(isAlnum: char -> bool, s: string): (r: string)
    ensures |r| <= |s|
    ensures forall i :: 0 <= i < |r| ==> Allowed(isAlnum, r[i])
  {
    if s == [] then []
    else
      var rest := KeepAllowed(isAlnum, s[1..]);
      if Allowed(isAlnum, s[0]) then [s[0]] + rest else rest
  }

  /** The filter keeps every allowed character, as often as it occurs and in
      its original order, and drops every other one. */
  lemma {:induction false} KeepAllowedKeeps(isAlnum: char -> bool, s: string)
    ensures forall c :: multiset(KeepAllowed(isAlnum, s))[c] == if Allowed(isAlnum, c) then multiset(s)[c] else 0
    ensures IsSubsequence(KeepAllowed(isAlnum, s), s)
  {
    if s != [] {
      KeepAllowedKeeps(isAlnum, s[1..]);
      assert s == [s[0]] + s[1..];
      var rest := KeepAllowed(isAlnum, s[1..]);
      if Allowed(isAlnum, s[0]) {
        assert ([s[0]] + rest)[1..] == rest;
      }
    }
  }

  /** The part of the file name taken from the pin's text: the first
      `NameLimit` characters of the text, filtered. */
  function NamePrefix(isAlnum: char -> bool, text: string): (r: string)
    ensures |r| <= NameLimit
    ensures forall i :: 0 <= i < |r| ==> Allowed(isAlnum, r[i])
  {
    KeepAllowed(isAlnum, text[..if |text| < NameLimit then |text| else NameLimit])
  }

  /** `file_info["type"].split('/')[-1]`: no slash, no longer than the type. */
  function Extension(mimeType: string): (ext: string)
    ensures '/' !in ext && |ext| <= |mimeType|
  {
    LastSegment(mimeType, '/')
  }

  /** The part of the file name after the prefix: `_<key>.<ext>`. */
  function FileTail(key: string, ext: string): string {
    "_" + key + "." + ext
  }

  lemma FileTailStart(key: string, ext: string)
    ensures |FileTail(key, ext)| > 0 && FileTail(key, ext)[0] == '_'
  {
    assert FileTail(key, ext) == ['_'] + (key + "." + ext);
  }

  /** The path a pin is saved to: `<dir>/<prefix>_<key>.<ext>`, where the
      prefix comes from `raw_text`, or from the key when there is none. */
  function SavePath(isAlnum: char -> bool, saveDir: string, rawText: Option<string>, key: string, mimeType: string): string {
    Join(saveDir, NamePrefix(isAlnum, rawText.GetOr(key)) + FileTail(key, Extension(mimeType)))
  }

  /** The save path lies under `saveDir` (the file name cannot start with a
      slash, since a slash is not alphanumeric), ends in `_<key>.<ext>` with
      `ext` the MIME subtype, and between them holds at most `NameLimit`
      filtered characters. */
  lemma SavePathShape(isAlnum: char -> bool, saveDir: string, rawText: Option<string>, key: string, mimeType: string)
    requires !isAlnum('/')
    ensures PathShape(SavePath(isAlnum, saveDir, rawText, key, mimeType), saveDir, FileTail(key, Extension(mimeType)))
    ensures FileTail(key, Extension(mimeType))[0] == '_' && '/' !in Extension(mimeType)
  {
    var tail := FileTail(key, Extension(mimeType));
    FileTailStart(key, Extension(mimeType));
    var prefix := NamePrefix(isAlnum, rawText.GetOr(key));
    JoinFileName(isAlnum, saveDir, prefix, tail);
    assert SavePath(isAlnum, saveDir, rawText, key, mimeType) == Join(saveDir, prefix + tail);
  }

  /** `p` is `dir`, then a `/` unless `dir` is empty or ends in one, then at
      most `NameLimit` characters, then `tail`. */
  predicate PathShape(p: string, dir: string, tail: string) {
    && |p| >= |dir| + |tail| && p[..|dir|] == dir
    && p[|p| - |tail|..] == tail
    && |p| <= |dir| + 1 + NameLimit + |tail|
    && (dir != [] && dir[|dir| - 1] != '/' ==> |p| > |dir| && p[|dir|] == '/')
    && ((dir == [] || dir[|dir| - 1] == '/') ==> |p| <= |dir| + NameLimit + |tail|)
  }

  /** Joining `<prefix><tail>` to a directory, where the prefix holds only
      allowed characters, a slash is not one of them, and the tail does not
      start with a slash. */
  lemma JoinFileName(isAlnum: char -> bool, dir: string, prefix: string, tail: string)
    requires !isAlnum('/') && |tail| > 0 && tail[0] != '/'
    requires |prefix| <= NameLimit && forall i :: 0 <= i < |prefix| ==> Allowed(isAlnum, prefix[i])
    ensures PathShape(Join(dir, prefix + tail), dir, tail)
  {
    var name := prefix + tail;
    assert name[0] != '/' by {
      if |prefix| > 0 {
        assert Allowed(isAlnum, prefix[0]);
      }
    }
    var p := Join(dir, name);
    if dir == [] || dir[|dir| - 1] == '/' {
      assert p == dir + name;
    } else {
      assert p == dir + "/" + name;
    }
    assert p[|p| - |tail|..] == name[|name| - |tail|..];
  }

  /** The URL an asset is fetched from: the CDN base, a slash, and the key,
      which can be read back from it. */
  function ImageUrl(key: string): (u: string)
    ensures |u| == |ImgBaseUrl| + 1 + |key|
    ensures u[..|ImgBaseUrl| + 1] == ImgBaseUrl + "/" && u[|ImgBaseUrl| + 1..] == key
  {
    ImgBaseUrl + "/" + key
  }

  // ---------------------------------------------------------------------
  // Asset store: download with skip-if-exists

  datatype StoreError = MissingKey(name: string) | DirFailed(path: string) | FetchFailed(url: string)

  /** A request made to the image CDN. */
  datatype Request = Request(url: string, headers: Headers)

  /** The result of one `download_image` call, the file system after it, and
      the requests it made to the CDN. */
  datatype Stored = Stored(result: Result<string, StoreError>, disk: Disk, fetched: seq<Request>)

  /** A pin whose `file`, `file.key` and `file.type` are all present. */
  predicate Complete(pin: Pin) {
    pin.file.Some? && pin.file.value.key.Some? && pin.file.value.mimeType.Some?
  }

  /** The save path of a complete pin. */
  function PinPath(isAlnum: char -> bool, pin: Pin, saveDir: string): string
    requires Complete(pin)
  {
    SavePath(isAlnum, saveDir, pin.rawText, pin.file.value.key.value, pin.file.value.mimeType.value)
  }

  /** `download_image(pin, save_dir)` as a transition of the disk. The
      directory is created before the existence check; an existing path is
      returned without a fetch; otherwise the asset is fetched without a
      cookie and, on success, written to the save path. A pin without
      `file`, `file.key` or `file.type` fails before anything happens, and
      at most one asset is fetched. */
  function StoreImage(disk: Disk, images: (string, Headers) -> Option<seq<Byte>>, isAlnum: char -> bool, pin: Pin, saveDir: string): (s: Stored)
    ensures !Complete(pin) ==> s.result.Failure? && s.disk == disk && s.fetched == []
    ensures |s.fetched| <= 1
  {
    if pin.file.None? then Stored(Failure(MissingKey("file")), disk, [])
    else if pin.file.value.key.None? then Stored(Failure(MissingKey("key")), disk, [])
    else if pin.file.value.mimeType.None? then Stored(Failure(MissingKey("type")), disk, [])
    else
      var key := pin.file.value.key.value;
      var url := ImageUrl(key);
      match MakeDirsOn(disk, saveDir)
      case None => Stored(Failure(DirFailed(saveDir)), disk, [])
      case Some(made) =>
        var path := PinPath(isAlnum, pin, saveDir);
        if PathExists(made, path) then Stored(Success(path), made, [])
        else
          match images(url, GetHeaders(None))
          case None => Stored(Failure(FetchFailed(url)), made, [Request(url, GetHeaders(None))])
          case Some(data) => Stored(Success(path), made.(files := made.files[path := data]), [Request(url, GetHeaders(None))])
  }

  /** A failing `makedirs` fails the call with nothing changed; otherwise the
      save directory exists afterwards, and a successful call returns the
      pin's save path, which then exists. */
  lemma StoreOutcome(disk: Disk, images: (string, Headers) -> Option<seq<Byte>>, isAlnum: char -> bool, pin: Pin, saveDir: string)
    requires Complete(pin)
    ensures var s := StoreImage(disk, images, isAlnum, pin, saveDir);
      && (MakeDirsOn(disk, saveDir).None? ==> s == Stored(Failure(DirFailed(saveDir)), disk, []))
      && (MakeDirsOn(disk, saveDir).Some? ==> s.disk.dirs == disk.dirs + {saveDir})
      && (s.result.Success? ==> s.result.value == PinPath(isAlnum, pin, saveDir) && PathExists(s.disk, s.result.value))
  {
  }

  /** The call writes at most the path it returns: every other file keeps
      its presence and its contents. */
  lemma StoreFrame(disk: Disk, images: (string, Headers) -> Option<seq<Byte>>, isAlnum: char -> bool, pin: Pin, saveDir: string, p: string)
    ensures var s := StoreImage(disk, images, isAlnum, pin, saveDir);
      (s.result.Failure? || p != s.result.value) ==>
        && (p in s.disk.files <==> p in disk.files)
        && (p in disk.files ==> s.disk.files[p] == disk.files[p])
  {
  }

  /** When the save path already exists (as a file or a directory), the call
      returns it without fetching and leaves every file as it was. */
  lemma StoreSkipsExisting(disk: Disk, images: (string, Headers) -> Option<seq<Byte>>, isAlnum: char -> bool, pin: Pin, saveDir: string)
    requires Complete(pin) && MakeDirsOn(disk, saveDir).Some?
    requires PathExists(disk, PinPath(isAlnum, pin, saveDir))
    ensures var s := StoreImage(disk, images, isAlnum, pin, saveDir);
      s.result == Success(PinPath(isAlnum, pin, saveDir)) && s.fetched == [] && s.disk.files == disk.files
  {
  }

  /** When the save path is absent after `makedirs`, the asset is requested
      once, from `ImageUrl(key)` with the cookie-less headers; on an answer
      the file at the save path holds exactly the bytes received and the call
      returns that path; without one the call fails and nothing is written. */
  lemma StoreFetches(disk: Disk, images: (string, Headers) -> Option<seq<Byte>>, isAlnum: char -> bool, pin: Pin, saveDir: string, made: Disk)
    requires Complete(pin) && MakeDirsOn(disk, saveDir) == Some(made)
    requires !PathExists(made, PinPath(isAlnum, pin, saveDir))
    ensures var s := StoreImage(disk, images, isAlnum, pin, saveDir);
      var url := ImageUrl(pin.file.value.key.value);
      && s.fetched == [Request(url, GetHeaders(None))]
      && (images(url, GetHeaders(None)).Some? ==>
            && s.result == Success(PinPath(isAlnum, pin, saveDir))
            && s.disk.files == made.files[PinPath(isAlnum, pin, saveDir) := images(url, GetHeaders(None)).value]
            && s.disk.dirs == made.dirs)
      && (images(url, GetHeaders(None)).None? ==>
            s.result == Failure(FetchFailed(url)) && s.disk == made)
  {
  }

  /** None of the requests carries a `Cookie` header. */
  predicate CookieFree(requests: seq<Request>) {
    forall i :: 0 <= i < |requests| ==> "Cookie" !in requests[i].headers
  }

  lemma CookieFreeAppend(a: seq<Request>, b: seq<Request>)
    requires CookieFree(a) && CookieFree(b)
    ensures CookieFree(a + b)
  {
    forall i | 0 <= i < |a + b|
      ensures "Cookie" !in (a + b)[i].headers
    {
      if i < |a| { assert (a + b)[i] == a[i]; } else { assert (a + b)[i] == b[i - |a|]; }
    }
  }

  /** `download_image` requests assets with `_get_headers()`: no request it
      makes carries the user's cookie. */
  lemma AssetRequestsCarryNoCookie(disk: Disk, images: (string, Headers) -> Option<seq<Byte>>, isAlnum: char -> bool, pin: Pin, saveDir: string)
    ensures CookieFree(StoreImage(disk, images, isAlnum, pin, saveDir).fetched)
  {
    EmptyCookieIsNone();
  }

  /** Running `download_image` again on the same pin and directory after a
      successful call fetches nothing, changes nothing and returns the same
      path. */
  lemma StoreIsIdempotent(disk: Disk, images: (string, Headers) -> Option<seq<Byte>>, isAlnum: char -> bool, pin: Pin, saveDir: string)
    requires StoreImage(disk, images, isAlnum, pin, saveDir).result.Success?
    ensures var first := StoreImage(disk, images, isAlnum, pin, saveDir);
      var second := StoreImage(first.disk, images, isAlnum, pin, saveDir);
      second == Stored(first.result, first.disk, [])
  {
    var first := StoreImage(disk, images, isAlnum, pin, saveDir);
    StoreOutcome(disk, images, isAlnum, pin, saveDir);
    assert MakeDirsOn(first.disk, saveDir) == Some(first.disk);
    StoreSkipsExisting(first.disk, images, isAlnum, pin, saveDir);
  }

  /** `download_image` on the mutable file system. */
  method DownloadImage(fs: FileSystem, images: (string, Headers) -> Option<seq<Byte>>, isAlnum: char -> bool, pin: Pin, saveDir: string)
    returns (r: Result<string, StoreError>, ghost fetched: seq<Request>)
    modifies fs
    ensures Stored(r, fs.State(), fetched) == StoreImage(old(fs.State()), images, isAlnum, pin, saveDir)
  {
    fetched := [];
    if pin.file.None? {
      return Failure(MissingKey("file")), fetched;
    }
    var info := pin.file.value;
    if info.key.None? {
      return Failure(MissingKey("key")), fetched;
    }
    var key := info.key.value;
    var url := ImageUrl(key);
    if info.mimeType.None? {
      return Failure(MissingKey("type")), fetched;
    }
    var ext := Extension(info.mimeType.value);
    var made := fs.MakeDirs(saveDir);
    if !made {
      return Failure(DirFailed(saveDir)), fetched;
    }
    var fileName := NamePrefix(isAlnum, pin.rawText.GetOr(key));
    var savePath := Join(saveDir, fileName + FileTail(key, ext));
    var present := fs.Exists(savePath);
    if present {
      return Success(savePath), fetched;
    }
    var headers := GetHeaders(None);
    fetched := [Request(url, headers)];
    var data := images(url, headers);
    if data.None? {
      return Failure(FetchFailed(url)), fetched;
    }
    fs.WriteFile(savePath, data.value);
    return Success(savePath), fetched;
  }
}
