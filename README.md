# Huaban board downloader — a Dafny model

This project models the core of the Huaban board downloader. Given a board id and an optional cookie, it:

- fetches the board's metadata from `https://huaban.com/v3/boards/<id>`;
- pages through the board's pins 100 at a time, using the last pin's `pin_id` as the `max` cursor;
- downloads each pin's asset from `https://gd-hbimg.huaban.com/<key>` into a save directory, under a file name derived from the pin's text, unless that path already exists;
- reports progress;
- returns a gallery of (image URL, caption + ✅/❌) entries, the board text and a status line.

Modules, one per concern of the program:

- `Wrappers`: `Option` and `Result`.
- `Strings`:
  - `str(int)` as `Decimal`, with its inverse;
  - `s.split(sep)[-1]` as `LastSegment`.
- `Files`: the file system the downloader touches.
  - `os.path.join` as `Join`.
  - `Disk` is a snapshot of directories and files.
  - `FileSystem` is a class with `MakeDirs`, `Exists` and `WriteFile`.
- `Downloader`: the `HuabanDownloader` class of `downloader.py`.
  - Request headers; the board and pin-list URLs; `get_board_info`.
  - The pagination, both as the specification `ListPages` and as the loop `GetBoardPins`.
  - The file-name derivation, and `download_image`:
    - `StoreImage` is the disk transition;
    - `DownloadImage` is the method on a `FileSystem`.
- `App`: `download_board` of `app.py`.
  - `Run` is the whole call as a function of the server and the disk.
  - `DownloadBoard` is the method. Its per-pin loop is `DownloadItems`, with one pass in `DownloadItem`.

The network is a parameter. A `Remote` holds three total functions:

- the board endpoint and the pin-list endpoint, each from (url, headers) to a reply;
- the image CDN, from (url, headers) to optional bytes.

So one run sees a deterministic server. A pin-list reply is `TransportError(detail)` or `Body(field, dump)`; `field` is the `pins` value if present, and `dump` is the JSON rendering used in the error message. The loop methods are proved against the specification functions, and the properties are proved about those functions:

- `GetBoardPins` returns `Flatten(ListPages(...))`.
- `DownloadImage` leaves `StoreImage(...)`.
- `DownloadItems` leaves `Items(...)`.
- `DownloadBoard` returns `Run(...)`.

Two orderings in the code matter:

- `download_image` creates the save directory *before* it checks whether the file exists (downloader.py:86 before :94). So even a skipped pin needs `makedirs` to succeed.
- `download_board` reports an item's progress *before* downloading it, not after (app.py:59 before :62). So the last item already reports 1.0, and the final report repeats 1.0.

## Model

| member | source | states |
|---|---|---|
| Strings.Decimal | downloader.py:50-52 | `str(n)` of a non-negative integer is a non-empty string of digits without a leading zero |
| Strings.ParseDecimalInverts | downloader.py:52 | reading the digits of `str(n)` back gives `n` |
| Strings.DecimalInjective | downloader.py:52 | distinct pin ids are written as distinct `max` values |
| Strings.LastSegment | downloader.py:83 | `split('/')[-1]` holds no separator and is no longer than its input |
| Strings.LastSegmentIsSuffix | downloader.py:83 | the segment is the suffix after the last separator, preceded by it unless it is the whole string, which it is when there is no separator |
| Strings.LastSegmentAfterSeparator | downloader.py:83 | whatever precedes the last `/`, the segment after it is recovered exactly |
| Files.Join | downloader.py:91 | `os.path.join` ends with the name; an absolute name replaces the directory; otherwise the result starts with the directory, followed by a `/` exactly when the directory is non-empty and does not already end in one, then the name |
| Files.PathExists | downloader.py:94 | `os.path.exists` on a disk snapshot: true for a directory as well as for a file |
| Files.MakeDirsOn | downloader.py:86 | in the model, where paths are compared as literal strings, `makedirs(exist_ok=True)` fails exactly on an empty path or a path that is an existing file; otherwise it adds the directory, leaves files alone, and changes nothing when the directory already exists |
| Files.FileSystem.MakeDirs | downloader.py:86 | the in-place `makedirs` reports success exactly when `MakeDirsOn` does and leaves its state |
| Files.FileSystem.Exists | downloader.py:94 | `os.path.exists` is true for a directory as well as for a file |
| Files.FileSystem.WriteFile | downloader.py:100-103 | writing the streamed bytes to a path that is not a directory sets that one file and changes nothing else |
| Downloader.GetHeaders | downloader.py:15-25 | exactly the four fixed headers with their values, plus `Cookie` exactly when the cookie is truthy, forwarded verbatim |
| Downloader.EmptyCookieIsNone | downloader.py:15-25 | an empty cookie is treated as none, and without one no `Cookie` header is sent |
| Downloader.AssetRequestsCarryNoCookie | downloader.py:98 | no request `download_image` makes to the CDN carries a `Cookie` header |
| Downloader.ApiErrorText | downloader.py:32-36 | the text of a failed request: the transport error's own text, or `API返回错误: ` followed by the JSON dump of a body without the expected field (the same message for `pins` at downloader.py:59) |
| Downloader.Decode | downloader.py:32-38 | `raise_for_status()` and the field lookup: success exactly when a body holds the field, returning its value unchanged; otherwise the transport error or the missing-field error with the body's dump |
| Downloader.BoardInfoUrl | downloader.py:30 | the board endpoint starts with `https://huaban.com/v3/boards/<board_id>` |
| Downloader.GetBoardInfo | downloader.py:27-40 | success exactly when a body with `board` arrives, returning it unchanged; a transport failure and a missing field give their own errors |
| Downloader.PinsUrl | downloader.py:50-52 | the pin-list URL starts with `https://huaban.com/v3/boards/<board_id>`, with or without a cursor |
| Downloader.CursorInUrl | downloader.py:50-52 | a cursor request is the first URL with `&max=<pin_id>` appended, and distinct cursors give distinct URLs |
| Downloader.ListPages | downloader.py:49-72 | without any request budget left the listing fails |
| Downloader.ConcatSnoc | downloader.py:65 | extending `all_pins` by a page appends that page's pins |
| Downloader.GetBoardPins | downloader.py:42-75 | the loop returns all pins of the pages `ListPages` describes, or its failure |
| Downloader.ListPagesIsListing | downloader.py:49-72 | a successful listing is a complete one: each page is the answer to the cursor of the previous page's last pin, every page but the last is full, and it ends on a short page or an empty answer, within the budget |
| Downloader.ListingIsListPages | downloader.py:49-72 | conversely, every complete listing within the budget is what the loop returns |
| Downloader.FailedRequestLosesListing | downloader.py:54-75 | a failed request after any number of full pages fails the whole listing, dropping the pins gathered so far |
| Downloader.KeepAllowed | downloader.py:90 | the filter keeps only alphanumerics, space, `-` and `_`, and is never longer than its input |
| Downloader.KeepAllowedKeeps | downloader.py:90 | the filter keeps every allowed character as often as it occurs, in order, and drops the others |
| Downloader.NamePrefix | downloader.py:89-90 | the name prefix has at most 50 characters, all allowed |
| Downloader.Extension | downloader.py:83 | the extension is the part of the MIME type after its last `/`: it holds no `/` and is no longer than the type |
| Downloader.SavePath | downloader.py:89-91 | the save path joins the save directory and `<prefix>_<key>.<ext>`, the prefix taken from `raw_text` or else the key; its shape is stated by `SavePathShape` |
| Downloader.SavePathShape | downloader.py:83-91 | the save path is the save directory, a `/` separating it from the file name unless it is empty or already ends in one, at most 50 name characters, and `_<key>.<ext>` with a slash-free extension |
| Downloader.JoinFileName | downloader.py:91 | joining a filtered prefix and a tail that does not start with `/` to a directory keeps the directory in front, adds the separating `/` when one is needed, and keeps the tail at the end |
| Downloader.ImageUrl | downloader.py:82 | the asset URL is `https://gd-hbimg.huaban.com/` followed by the key, which can be read back from it |
| Downloader.StoreImage | downloader.py:77-107 | a pin without `file`, `key` or `type` fails before anything happens, and at most one request is made |
| Downloader.StoreOutcome | downloader.py:86-95 | a failing `makedirs` fails with nothing changed; otherwise the directory exists afterwards; a success returns the pin's save path, which then exists |
| Downloader.StoreFrame | downloader.py:98-103 | no file other than the returned path changes presence or contents |
| Downloader.StoreFetches | downloader.py:98-104 | when the save path is absent after `makedirs`, exactly one request is made, to the pin's image URL with the cookie-less headers; an answer is written to the save path byte for byte and that path is returned; no answer fails with the URL and writes nothing |
| Downloader.StoreSkipsExisting | downloader.py:94-95 | an existing save path is returned without a fetch and with the files unchanged |
| Downloader.StoreIsIdempotent | downloader.py:86-95 | downloading the same pin again after a success fetches nothing, changes nothing and returns the same path |
| Downloader.DownloadImage | downloader.py:77-107 | the method's result, new file system and requests are those of `StoreImage` |
| App.Title | app.py:53-55 | the caption is the pin's text (or `无描述`) and a space, followed by `[<source>]` when the source is truthy and by nothing otherwise |
| App.ItemFraction | app.py:59 | the progress value before the i-th download is `(i/total)*0.9 + 0.1`; its bounds are `ItemFractionBounds` |
| App.ItemLabel | app.py:59 | the item label `下载图片 <i>/<total>...` names the item number and the total, which can be read back from it |
| App.ItemFractionBounds | app.py:59 | item fractions lie above 0.1, grow with the item number and reach exactly 1.0 at the last item |
| App.SaveDirOrDefault | app.py:42-43 | a truthy `save_dir` is used as given, else `os.path.join("huaban", board_id)`, which is `huaban/<board_id>` unless the id starts with `/` |
| App.KeyErrorText | app.py:51 | `str(KeyError)` for a pin whose gallery URL cannot be built: `'file'` when the pin has no `file`, else `'key'` |
| App.StatusMark | app.py:61-66 | the download's mark: `✅` when `download_image` returned, `❌` when it raised |
| App.EntryFor | app.py:57-69 | the gallery entry of a pin: the image URL of its key, and its caption followed by a space and the mark of its own download |
| App.Step | app.py:50-69 | one pass of the per-pin loop: nothing after an escaped exception; a pin without `file.key` raises; otherwise the entry, the report, the download's disk and requests are added |
| App.StepAborts | app.py:51 | a pass aborts a running loop exactly when its pin lacks `file` or `file.key` |
| App.Items | app.py:50-69 | the loop over the first `k` pins holds as many entries as reports, at most `k`, and exactly `k` when no exception escaped |
| App.ItemsAbort | app.py:50-51 | the loop is aborted exactly when some pin so far lacks `file` or `file.key`, and until then it holds one entry and one report per pin |
| App.ItemsShape | app.py:50-69 | each entry is the pin's image URL and caption with the mark of its own download, in pin order, made on the disk the earlier pins left, so a failed download does not stop later ones |
| App.ItemReports | app.py:59 | the item reports are `(i/total)*0.9 + 0.1` with label `i/total` for i = 1, 2, …, also when the loop aborts |
| App.ItemsCookieFree | app.py:62 | no CDN request of the per-pin loop carries a `Cookie` header |
| App.AbortedStays | app.py:80-83 | once the loop has raised, no later pin is handled |
| App.DoneText | app.py:77 | the completion message starts by naming the board's title, gives the number of pins after `共下载 `, and ends with the save directory |
| App.Run | app.py:14-83 | every run first reports 0 with `获取画板信息...` |
| App.RunCookieFree | app.py:14-83 | whatever cookie a run is given, it goes to the board API only: no request to the image CDN carries it |
| App.ListErrorText | downloader.py:74-75 | the listing failure's text: `获取图片列表失败: ` followed by the failed request's text (or the model-only page-limit text) |
| App.Fatal | app.py:80-83 | the `except` branch: an empty gallery and `下载失败: ` followed by the message, as both text outputs |
| App.FailedRunShape | app.py:16-83 | a run that does not complete returns no gallery and the same `下载失败: ` message twice; failing before the loop leaves the disk unchanged and fetches nothing; an empty listing says `未找到任何图片` |
| App.CompletedRunShape | app.py:20-78 | a completed run has one entry per pin with its URL, caption and own download mark, the board text, and the status naming every listed pin; its progress reports are 0, then 0.1, then `(i/n)*0.9 + 0.1` with label `i/n` for i = 1 to n in order, then 1.0 |
| App.CompletedRun | app.py:20-78 | a completed run is the per-pin loop over all listed pins, which does not abort, wrapped in the start, listing and final reports, the board text and the completion message |
| App.CompletedRunReports | app.py:20-72 | the progress reports of a completed run are 0, then 0.1, then the item reports of pins 1 to n at positions 2 to n + 1, then 1.0 |
| App.ItemsProgressive | app.py:35-72 | the listing report, item reports and final report form a sequence in [0, 1] starting at 0 that never decreases |
| App.ProgressIsMonotone | app.py:20-72 | the progress fractions of every run, failed or completed, start at 0, stay in [0, 1] and never decrease |
| App.DownloadItem | app.py:51-69 | one loop pass appends the entry with its mark, appends the report, and leaves the disk of that pin's download |
| App.DownloadItems | app.py:49-69 | the loop's gallery, reports, disk, requests and abort are those of `Items` |
| App.DownloadBoard | app.py:14-83 | the method's outputs, progress reports, disk and requests are those of `Run` |

## Left out

- The Gradio user interface (`create_ui`), logging, and the `time.sleep` throttling delays have no observable effect on the results and are not modelled.
- The HTTP client, TLS, timeouts and JSON decoding are folded into the `Remote` parameter. Their failures appear only as `TransportError(detail)`, with `detail` standing for `str(e)`.
- The markdown board summary of app.py:24-32 (`strftime`, `localtime`, the `or '无'` and `follow_count` defaults) is the parameter `formatBoard`. A board missing `title`, `description`, `pin_count`, `user` (or its `username`) or `updated_at` (a `KeyError` there) is not modelled: `Board` always has these fields. `Board.description` is optional only to stand for a JSON `null`, which `or '无'` replaces.
- `str.isalnum` is Unicode-aware; it is the parameter `isAlnum`. Only `!isAlnum('/')` is assumed, where a lemma needs it.
- GetBoardPins: the source loops `while True`. The model takes a request budget `fuel`, and running out of it is the model-only error `PageLimit`. The lemmas state the listing exactly for any budget that covers its requests.
- ListPages: like the code's `len(pins) < page_size` (downloader.py:66), it ends the listing on a page of fewer than 100 pins and treats any other page as full. That the server answers at most 100 pins per page depends on the server and is not stated.
- A pin always has a `pin_id` (a `KeyError` on `pin_id` at downloader.py:52 is not modelled). `raw_text` and `source` are absent or strings; a JSON `null` `raw_text`, which would make the slice at downloader.py:89 raise, is not modelled.
- `download_image`'s own error message (downloader.py:106-107, including the `UnboundLocalError` when `file` or `key` is missing) is not kept: `download_board` only logs it and marks the entry ❌.
- `os.makedirs` creating missing parent directories is not modelled: only the save directory itself is added. Its other failures (a parent component that is a file, a permission error) are not modelled either.
- Paths follow POSIX `os.path` (`posixpath`): the separator is `/`. Under Windows (`ntpath`) the separator is `\`, and the default directory would be `huaban\<board_id>`; that is not modelled.
- Paths are compared as literal strings, without normalisation: `out/` and `out`, `a//b` and `a/b`, `./x` and `x` are different paths in the model. So `MakeDirsOn` accepts `out/` when `out` is a file, where `os.makedirs` raises.
- A `Disk` can hold the same path as a directory and as a file. The operations never create such a state from one without it (`MakeDirsOn` refuses an existing file, `WriteFile` requires a non-directory), but a starting disk may have it.
- `open` failing (for example a key containing `/`, or a full disk) is not modelled. Neither is a partial file left by a stream that fails midway: a failed fetch writes nothing.
- The chunked streaming of the asset (8192-byte chunks) is modelled as one write of the whole body.
- Floating-point rounding of the progress fractions is not modelled: fractions are exact reals.
