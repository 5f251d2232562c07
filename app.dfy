/** `download_board`: fetch the board, list its pins, download each pin into
    the save directory while reporting progress, and return the gallery
    entries with the board text and a status line. Any failure before or
    outside the per-pin download collapses the result to `([], msg, msg)`. */
module App {
  import opened Wrappers
  import opened Strings
  import opened Files
  import opened Downloader

  const NoDescription: string := "无描述"
  const Succeeded: string := "✅"
  const Failed: string := "❌"
  /** Prefix of every fatal error message. */
  const FailurePrefix: string := "下载失败: "

  /** A gallery entry: image URL and caption. */
  datatype Entry = Entry(url: string, title: string)

  /** One call of the progress callback. */
  datatype Report = Report(fraction: real, desc: string)

  /** The caption of a pin: its text (or a placeholder), a space, and its
      source in brackets when it has one. */
  function Title(pin: Pin): (r: string)
    ensures var text := pin.rawText.GetOr(NoDescription);
      |r| > |text| && r[..|text|] == text && r[|text|] == ' '
    ensures !Truthy(pin.source) ==> r == pin.rawText.GetOr(NoDescription) + " "
    ensures Truthy(pin.source) ==> r[|pin.rawText.GetOr(NoDescription)| + 1..] == "[" + pin.source.value + "]"
  {
    pin.rawText.GetOr(NoDescription) + " " + (if Truthy(pin.source) then "[" + pin.source.value + "]" else "")
  }

  /** The progress value reported before the i-th (1-based) download. */
  function ItemFraction(i: nat, total: nat): real
    requires 0 < total
  {
    (i as real / total as real) * 0.9 + 0.1
  }

  /** The label of the i-th item: its number and the total, which can be
      read back from it. */
  function ItemLabel(i: nat, total: nat): (r: string)
    ensures var n := "下载图片 " + Decimal(i) + "/";
      |r| == |n| + |Decimal(total)| + 3 && r[..|n|] == n && r[|n|..|n| + |Decimal(total)|] == Decimal(total)
  {
    "下载图片 " + Decimal(i) + "/" + Decimal(total) + "..."
  }

  /** Item fractions lie above the listing's 0.1, grow with `i`, and reach
      exactly 1.0 at the last item. */
  lemma ItemFractionBounds(i: nat, j: nat, total: nat)
    requires 1 <= i <= j <= total
    ensures 0.1 < ItemFraction(i, total) <= ItemFraction(j, total) <= 1.0
    ensures ItemFraction(total, total) == 1.0
  {
    var n := total as real;
    assert i as real / n <= j as real / n by {
      assert (j as real / n) - (i as real / n) == (j - i) as real / n;
    }
    assert j as real / n <= 1.0;
    assert i as real / n > 0.0;
  }

  /** `save_dir`, or `os.path.join("huaban", str(board_id))` when it is falsy. */
  function SaveDirOrDefault(saveDir: Option<string>, boardId: string): (dir: string)
    ensures Truthy(saveDir) ==> dir == saveDir.value
    ensures !Truthy(saveDir) ==> dir == Join("huaban", boardId)
    ensures !Truthy(saveDir) && (boardId == [] || boardId[0] != '/') ==> dir == "huaban/" + boardId
  {
    if Truthy(saveDir) then saveDir.value else Join("huaban", boardId)
  }

  /** `pin['file']['key']` as evaluated for the gallery URL, outside the
      per-pin `try`. */
  function GalleryKey(pin: Pin): Option<string> {
    if pin.file.Some? then pin.file.value.key else None
  }

  /** `str(KeyError(...))` for a pin without `file` or `file.key`. */
  function KeyErrorText(pin: Pin): string {
    if pin.file.None? then "'file'" else "'key'"
  }

  function StatusMark(r: Result<string, StoreError>): string {
    if r.Success? then Succeeded else Failed
  }

  /** A download of one pin into a fixed directory, as a transition of the
      disk. */
  type Storer = (Disk, Pin) -> Stored

  /** `download_image(pin, save_dir)` for a fixed `save_dir`. */
  function StoreIn(images: (string, Headers) -> Option<seq<Byte>>, isAlnum: char -> bool, saveDir: string): Storer {
    (d, pin) => StoreImage(d, images, isAlnum, pin, saveDir)
  }

  /** The state of the per-pin loop: gallery entries, item progress reports,
      the disk, the CDN requests made, and the message of an exception that
      escaped the loop. */
  datatype Tally = Tally(entries: seq<Entry>, reports: seq<Report>, disk: Disk, fetched: seq<Request>, aborted: Option<string>)

  /** The gallery entry of a pin whose download left `s`: the image URL and
      the caption with the download's mark. */
  function EntryFor(pin: Pin, s: Stored): Entry
    requires GalleryKey(pin).Some?
  {
    Entry(ImageUrl(GalleryKey(pin).value), Title(pin) + " " + StatusMark(s.result))
  }

  function ReportFor(i: nat, total: nat): Report
    requires 0 < total
  {
    Report(ItemFraction(i, total), ItemLabel(i, total))
  }

  /** One iteration for the i-th pin (1-based): the gallery URL is built
      (a missing `file` or `key` raises out of the loop); the entry is
      appended; progress is reported; the download runs and its failure is
      caught; the entry's title gets the status mark. */
  function Step(store: Storer, t: Tally, pin: Pin, i: nat, total: nat): Tally
    requires 0 < i <= total
  {
    if t.aborted.Some? then t
    else if GalleryKey(pin).None? then t.(aborted := Some(KeyErrorText(pin)))
    else
      var s := store(t.disk, pin);
      Tally(t.entries + [EntryFor(pin, s)], t.reports + [ReportFor(i, total)], s.disk, t.fetched + s.fetched, None)
  }

  /** The loop state after the first `k` pins. */
  function Items(store: Storer, disk: Disk, pins: seq<Pin>, k: nat): (r: Tally)
    requires k <= |pins|
    ensures |r.entries| == |r.reports| <= k
    ensures r.aborted.None? ==> |r.entries| == k
    decreases k
  {
    if k == 0 then Tally([], [], disk, [], None)
    else Step(store, Items(store, disk, pins, k - 1), pins[k - 1], k, |pins|)
  }

  /** The first `k` pins all have `file.key`. */
  predicate AllKeyed(pins: seq<Pin>, k: nat)
    requires k <= |pins|
  {
    forall j :: 0 <= j < k ==> GalleryKey(pins[j]).Some?
  }

  /** A pass aborts a running loop exactly when its pin lacks `file.key`. */
  lemma StepAborts(store: Storer, t: Tally, pin: Pin, i: nat, total: nat)
    requires 0 < i <= total
    ensures Step(store, t, pin, i, total).aborted.None? <==> t.aborted.None? && GalleryKey(pin).Some?
  {
  }

  /** The loop is aborted exactly when some pin so far lacks `file` or
      `file.key`; until then every pin got one entry and one report. */
  lemma {:induction false} ItemsAbort(store: Storer, disk: Disk, pins: seq<Pin>, k: nat)
    requires k <= |pins|
    ensures var t := Items(store, disk, pins, k);
      && (t.aborted.None? <==> AllKeyed(pins, k))
      && (t.aborted.None? ==> |t.entries| == k && |t.reports| == k)
    decreases k
  {
    if k > 0 {
      var prev := Items(store, disk, pins, k - 1);
      ItemsAbort(store, disk, pins, k - 1);
      StepAborts(store, prev, pins[k - 1], k, |pins|);
      if prev.aborted.Some? {
        assert !AllKeyed(pins, k - 1);
      } else if GalleryKey(pins[k - 1]).Some? {
        assert AllKeyed(pins, k);
      }
    }
  }

  /** Every pin before `k` got its entry in pin order, made from its own
      download on the disk the earlier pins left, whatever those downloads
      did. */
  lemma {:induction false} ItemsShape(store: Storer, disk: Disk, pins: seq<Pin>, k: nat)
    requires k <= |pins|
    requires AllKeyed(pins, k)
    ensures |Items(store, disk, pins, k).entries| == k
    ensures forall j :: 0 <= j < k ==>
      Items(store, disk, pins, k).entries[j] == EntryFor(pins[j], store(Items(store, disk, pins, j).disk, pins[j]))
    decreases k
  {
    if k > 0 {
      var prev := Items(store, disk, pins, k - 1);
      ItemsShape(store, disk, pins, k - 1);
      ItemsAbort(store, disk, pins, k - 1);
      var es := Items(store, disk, pins, k).entries;
      assert es == prev.entries + [EntryFor(pins[k - 1], store(prev.disk, pins[k - 1]))];
      forall j | 0 <= j < k
        ensures es[j] == EntryFor(pins[j], store(Items(store, disk, pins, j).disk, pins[j]))
      {
        if j < k - 1 {
          assert es[j] == prev.entries[j];
        }
      }
    }
  }

  /** The item reports are `(i/total)*0.9 + 0.1` with their `i/total`
      labels for i = 1, 2, ..., one per pin handled so far, also when the
      loop was aborted. */
  lemma {:induction false} ItemReports(store: Storer, disk: Disk, pins: seq<Pin>, k: nat)
    requires k <= |pins|
    ensures |Items(store, disk, pins, k).reports| <= k
    ensures forall j :: 0 <= j < |Items(store, disk, pins, k).reports| ==>
      Items(store, disk, pins, k).reports[j] == ReportFor(j + 1, |pins|)
    decreases k
  {
    if k > 0 {
      var prev := Items(store, disk, pins, k - 1);
      ItemReports(store, disk, pins, k - 1);
      if prev.aborted.None? && GalleryKey(pins[k - 1]).Some? {
        assert Items(store, disk, pins, k).reports == prev.reports + [ReportFor(k, |pins|)];
      }
    }
  }

  /** A pin with `file.key` met by a running loop adds its entry, its
      report, its download's disk and fetches. */
  lemma ItemsNext(store: Storer, disk: Disk, pins: seq<Pin>, i: nat)
    requires i < |pins| && GalleryKey(pins[i]).Some?
    requires Items(store, disk, pins, i).aborted.None?
    ensures var t := Items(store, disk, pins, i);
      var s := store(t.disk, pins[i]);
      Items(store, disk, pins, i + 1)
        == Tally(t.entries + [EntryFor(pins[i], s)], t.reports + [ReportFor(i + 1, |pins|)], s.disk, t.fetched + s.fetched, None)
  {
  }

  /** The per-pin loop sends the cookie to the CDN with none of its
      requests. */
  lemma {:induction false} ItemsCookieFree(images: (string, Headers) -> Option<seq<Byte>>, isAlnum: char -> bool, dir: string,
                                           disk: Disk, pins: seq<Pin>, k: nat)
    requires k <= |pins|
    ensures CookieFree(Items(StoreIn(images, isAlnum, dir), disk, pins, k).fetched)
    decreases k
  {
    if k > 0 {
      var store := StoreIn(images, isAlnum, dir);
      var t := Items(store, disk, pins, k - 1);
      ItemsCookieFree(images, isAlnum, dir, disk, pins, k - 1);
      if t.aborted.None? && GalleryKey(pins[k - 1]).Some? {
        var s := store(t.disk, pins[k - 1]);
        assert s == StoreImage(t.disk, images, isAlnum, pins[k - 1], dir);
        AssetRequestsCarryNoCookie(t.disk, images, isAlnum, pins[k - 1], dir);
        ItemsNext(store, disk, pins, k - 1);
        CookieFreeAppend(t.fetched, s.fetched);
      }
    }
  }

  /** Once an exception has escaped the loop nothing further happens. */
  lemma {:induction false} AbortedStays(store: Storer, disk: Disk, pins: seq<Pin>, k: nat, m: nat)
    requires k <= m <= |pins|
    requires Items(store, disk, pins, k).aborted.Some?
    ensures Items(store, disk, pins, m) == Items(store, disk, pins, k)
    decreases m
  {
    if m > k {
      AbortedStays(store, disk, pins, k, m - 1);
    }
  }

  /** What `download_board` returns, the progress reports it made, the disk
      after it, and the CDN requests it made. */
  datatype Outcome = Outcome(gallery: seq<Entry>, info: string, status: string, reports: seq<Report>, disk: Disk, fetched: seq<Request>)

  /** The `except` branch: no gallery, the same message twice. */
  function Fatal(msg: string, reports: seq<Report>, disk: Disk, fetched: seq<Request>): Outcome {
    Outcome([], FailurePrefix + msg, FailurePrefix + msg, reports, disk, fetched)
  }

  /** The pins `get_board_pins` returns for a board. */
  function Listing(remote: Remote, boardId: string, cookie: Option<string>, fuel: nat): Result<seq<Pin>, ListError> {
    Flatten(ListPages(PagesOf(remote, boardId, GetHeaders(cookie)), None, fuel))
  }

  function ListErrorText(e: ListError): string {
    "获取图片列表失败: " + match e
      case ApiFailure(c) => ApiErrorText(c)
      case PageLimit => "page limit reached"
  }

  const StartReport: Report := Report(0.0, "获取画板信息...")
  const ListingReport: Report := Report(0.1, "获取图片列表...")
  const DoneReport: Report := Report(1.0, "下载完成!")
  const NoPinsText: string := "未找到任何图片"

  /** The completion message: it names the board's title, the number of
      pins and, at its end, the save directory. */
  function DoneText(title: string, count: nat, saveDir: string): (r: string)
    ensures var n := "画板 [" + title;
      |r| > |n| + |saveDir| && r[..|n|] == n && r[|r| - |saveDir|..] == saveDir
    ensures var m := "画板 [" + title + "] 下载完成! 共下载 ";
      |r| > |m| + |Decimal(count)| && r[|m|..|m| + |Decimal(count)|] == Decimal(count)
  {
    "画板 [" + title + "] 下载完成! 共下载 " + Decimal(count) + " 张图片，保存在 " + saveDir
  }

  /** `download_board(board_id, cookie, save_dir)` over a disk; `formatBoard`
      renders the board text. */
  function Run(remote: Remote, disk: Disk, isAlnum: char -> bool, formatBoard: Board -> string,
               boardId: string, cookie: Option<string>, saveDir: Option<string>, fuel: nat): (o: Outcome)
    ensures |o.reports| >= 1 && o.reports[0] == StartReport
  {
    match GetBoardInfo(remote, boardId, cookie)
    case Failure(e) => Fatal("获取画板信息失败: " + ApiErrorText(e), [StartReport], disk, [])
    case Success(board) =>
      match Listing(remote, boardId, cookie, fuel)
      case Failure(e) => Fatal(ListErrorText(e), [StartReport, ListingReport], disk, [])
      case Success(pins) =>
        if |pins| == 0 then Fatal(NoPinsText, [StartReport, ListingReport], disk, [])
        else
          var dir := SaveDirOrDefault(saveDir, boardId);
          var t := Items(StoreIn(remote.images, isAlnum, dir), disk, pins, |pins|);
          if t.aborted.Some? then Fatal(t.aborted.value, [StartReport, ListingReport] + t.reports, t.disk, t.fetched)
          else Outcome(t.entries, formatBoard(board), DoneText(board.title, |pins|, dir),
                       [StartReport, ListingReport] + t.reports + [DoneReport], t.disk, t.fetched)
  }

  /** The run got past metadata and listing, found pins, and every pin has
      `file.key`. */
  ghost predicate Completes(remote: Remote, boardId: string, cookie: Option<string>, fuel: nat) {
    && GetBoardInfo(remote, boardId, cookie).Success?
    && Listing(remote, boardId, cookie, fuel).Success?
    && |Listing(remote, boardId, cookie, fuel).value| > 0
    && forall j :: 0 <= j < |Listing(remote, boardId, cookie, fuel).value| ==> GalleryKey(Listing(remote, boardId, cookie, fuel).value[j]).Some?
  }

  /** Whatever cookie a run is given, it is sent to the board API only:
      no request to the image CDN carries it. */
  lemma RunCookieFree(remote: Remote, disk: Disk, isAlnum: char -> bool, formatBoard: Board -> string,
                      boardId: string, cookie: Option<string>, saveDir: Option<string>, fuel: nat)
    ensures CookieFree(Run(remote, disk, isAlnum, formatBoard, boardId, cookie, saveDir, fuel).fetched)
  {
    var pins := Listing(remote, boardId, cookie, fuel);
    if GetBoardInfo(remote, boardId, cookie).Success? && pins.Success? && |pins.value| > 0 {
      ItemsCookieFree(remote.images, isAlnum, SaveDirOrDefault(saveDir, boardId), disk, pins.value, |pins.value|);
    }
  }

  /** A run that does not complete returns no gallery and the same message
      in both text outputs; failing in metadata, listing, or on an empty
      listing also downloads nothing and leaves the disk as it was. */
  lemma FailedRunShape(remote: Remote, disk: Disk, isAlnum: char -> bool, formatBoard: Board -> string,
                       boardId: string, cookie: Option<string>, saveDir: Option<string>, fuel: nat)
    requires !Completes(remote, boardId, cookie, fuel)
    ensures var o := Run(remote, disk, isAlnum, formatBoard, boardId, cookie, saveDir, fuel);
      && o.gallery == [] && o.info == o.status
      && |o.status| >= |FailurePrefix| && o.status[..|FailurePrefix|] == FailurePrefix
    ensures var o := Run(remote, disk, isAlnum, formatBoard, boardId, cookie, saveDir, fuel);
      var pins := Listing(remote, boardId, cookie, fuel);
      ((GetBoardInfo(remote, boardId, cookie).Failure? || pins.Failure? || |pins.value| == 0)
         ==> o.disk == disk && o.fetched == [])
    ensures var o := Run(remote, disk, isAlnum, formatBoard, boardId, cookie, saveDir, fuel);
      var pins := Listing(remote, boardId, cookie, fuel);
      ((GetBoardInfo(remote, boardId, cookie).Success? && pins.Success? && |pins.value| == 0)
         ==> o.status == FailurePrefix + NoPinsText)
  {
    var pins := Listing(remote, boardId, cookie, fuel);
    if GetBoardInfo(remote, boardId, cookie).Success? && pins.Success? && |pins.value| > 0 {
      var dir := SaveDirOrDefault(saveDir, boardId);
      ItemsAbort(StoreIn(remote.images, isAlnum, dir), disk, pins.value, |pins.value|);
    }
  }

  /** A completed run has one entry per pin, in pin order, with the pin's
      image URL and caption plus its own download mark (so a failed download
      does not stop the later ones); the status reports every listed pin as
      downloaded; the progress ends with 1.0. */
  lemma CompletedRunShape(remote: Remote, disk: Disk, isAlnum: char -> bool, formatBoard: Board -> string,
                          boardId: string, cookie: Option<string>, saveDir: Option<string>, fuel: nat)
    requires Completes(remote, boardId, cookie, fuel)
    ensures var o := Run(remote, disk, isAlnum, formatBoard, boardId, cookie, saveDir, fuel);
      var pins := Listing(remote, boardId, cookie, fuel).value;
      var dir := SaveDirOrDefault(saveDir, boardId);
      && |o.gallery| == |pins|
      && (forall j :: 0 <= j < |pins| ==>
            && o.gallery[j].url == ImageUrl(GalleryKey(pins[j]).value)
            && o.gallery[j].title == Title(pins[j]) + " "
                 + StatusMark(StoreImage(Items(StoreIn(remote.images, isAlnum, dir), disk, pins, j).disk, remote.images, isAlnum, pins[j], dir).result))
      && o.info == formatBoard(GetBoardInfo(remote, boardId, cookie).value)
      && o.status == DoneText(GetBoardInfo(remote, boardId, cookie).value.title, |pins|, dir)
      && |o.reports| == |pins| + 3
      && o.reports[0] == StartReport && o.reports[1] == ListingReport
      && (forall j :: 2 <= j < |pins| + 2 ==> o.reports[j] == ReportFor(j - 1, |pins|))
      && o.reports[|o.reports| - 1] == DoneReport
  {
    var pins := Listing(remote, boardId, cookie, fuel).value;
    var dir := SaveDirOrDefault(saveDir, boardId);
    var store := StoreIn(remote.images, isAlnum, dir);
    assert AllKeyed(pins, |pins|);
    ItemsAbort(store, disk, pins, |pins|);
    ItemsShape(store, disk, pins, |pins|);
    CompletedRunReports(remote, disk, isAlnum, formatBoard, boardId, cookie, saveDir, fuel);
    forall d: Disk, pin: Pin ensures store(d, pin) == StoreImage(d, remote.images, isAlnum, pin, dir) { }
  }

  /** A completed run is the loop over all its pins, wrapped in the start,
      listing and final reports and the completion message. */
  lemma CompletedRun(remote: Remote, disk: Disk, isAlnum: char -> bool, formatBoard: Board -> string,
                     boardId: string, cookie: Option<string>, saveDir: Option<string>, fuel: nat)
    requires Completes(remote, boardId, cookie, fuel)
    ensures var pins := Listing(remote, boardId, cookie, fuel).value;
      var dir := SaveDirOrDefault(saveDir, boardId);
      var board := GetBoardInfo(remote, boardId, cookie).value;
      var t := Items(StoreIn(remote.images, isAlnum, dir), disk, pins, |pins|);
      && t.aborted.None? && |t.reports| == |pins|
      && Run(remote, disk, isAlnum, formatBoard, boardId, cookie, saveDir, fuel)
         == Outcome(t.entries, formatBoard(board), DoneText(board.title, |pins|, dir),
                    [StartReport, ListingReport] + t.reports + [DoneReport], t.disk, t.fetched)
  {
    var pins := Listing(remote, boardId, cookie, fuel).value;
    assert AllKeyed(pins, |pins|);
    ItemsAbort(StoreIn(remote.images, isAlnum, SaveDirOrDefault(saveDir, boardId)), disk, pins, |pins|);
  }

  /** The item reports of pins 1 to n, after the start and listing reports
      and before the final one, sit at positions 2 to n + 1. */
  lemma {:induction false} ReportPositions(n: nat, items: seq<Report>)
    requires |items| == n && 0 < n
    requires forall j :: 0 <= j < n ==> items[j] == ReportFor(j + 1, n)
    ensures var rs := [StartReport, ListingReport] + items + [DoneReport];
      && |rs| == n + 3 && rs[0] == StartReport && rs[1] == ListingReport
      && (forall j :: 2 <= j < n + 2 ==> rs[j] == ReportFor(j - 1, n))
      && rs[n + 2] == DoneReport
  {
    var rs := [StartReport, ListingReport] + items + [DoneReport];
    forall j | 2 <= j < n + 2
      ensures rs[j] == ReportFor(j - 1, n)
    {
      assert rs[j] == items[j - 2];
    }
  }

  /** The progress reports of a completed run: 0, then 0.1, then the item
      reports of pins 1 to n in order, then 1.0. */
  lemma CompletedRunReports(remote: Remote, disk: Disk, isAlnum: char -> bool, formatBoard: Board -> string,
                            boardId: string, cookie: Option<string>, saveDir: Option<string>, fuel: nat)
    requires Completes(remote, boardId, cookie, fuel)
    ensures var o := Run(remote, disk, isAlnum, formatBoard, boardId, cookie, saveDir, fuel);
      var pins := Listing(remote, boardId, cookie, fuel).value;
      && |o.reports| == |pins| + 3
      && o.reports[0] == StartReport && o.reports[1] == ListingReport
      && (forall j :: 2 <= j < |pins| + 2 ==> o.reports[j] == ReportFor(j - 1, |pins|))
      && o.reports[|o.reports| - 1] == DoneReport
  {
    var pins := Listing(remote, boardId, cookie, fuel).value;
    var t := Items(StoreIn(remote.images, isAlnum, SaveDirOrDefault(saveDir, boardId)), disk, pins, |pins|);
    CompletedRun(remote, disk, isAlnum, formatBoard, boardId, cookie, saveDir, fuel);
    ItemReports(StoreIn(remote.images, isAlnum, SaveDirOrDefault(saveDir, boardId)), disk, pins, |pins|);
    ReportPositions(|pins|, t.reports);
  }

  /** Progress values stay in [0, 1], start at 0 and never decrease. */
  predicate Progressive(rs: seq<Report>) {
    && |rs| > 0 && rs[0].fraction == 0.0
    && (forall a :: 0 <= a < |rs| ==> 0.0 <= rs[a].fraction <= 1.0)
    && (forall a, b :: 0 <= a <= b < |rs| ==> rs[a].fraction <= rs[b].fraction)
  }

  /** The start and listing reports followed by item reports 1, 2, ... of
      `n`, with or without the final report, form a progressive sequence. */
  lemma ItemsProgressive(n: nat, items: seq<Report>)
    requires 0 < n && |items| <= n
    requires forall j :: 0 <= j < |items| ==> items[j] == ReportFor(j + 1, n)
    ensures Progressive([StartReport, ListingReport] + items)
    ensures Progressive([StartReport, ListingReport] + items + [DoneReport])
  {
    var rs := [StartReport, ListingReport] + items + [DoneReport];
    forall a | 2 <= a < |rs| ensures 0.1 < rs[a].fraction <= 1.0 {
      if a < 2 + |items| {
        assert rs[a] == items[a - 2];
        ItemFractionBounds(a - 1, a - 1, n);
      }
    }
    forall a, b | 0 <= a <= b < |rs| ensures rs[a].fraction <= rs[b].fraction {
      if 2 <= a && b < 2 + |items| {
        assert rs[a] == items[a - 2] && rs[b] == items[b - 2];
        ItemFractionBounds(a - 1, b - 1, n);
      }
    }
    assert ([StartReport, ListingReport] + items) == rs[..|rs| - 1];
  }

  /** Every fraction reported lies in [0, 1]; the sequence starts at 0 and
      never decreases, whether the run completes or fails. */
  lemma ProgressIsMonotone(remote: Remote, disk: Disk, isAlnum: char -> bool, formatBoard: Board -> string,
                           boardId: string, cookie: Option<string>, saveDir: Option<string>, fuel: nat)
    ensures Progressive(Run(remote, disk, isAlnum, formatBoard, boardId, cookie, saveDir, fuel).reports)
  {
    var o := Run(remote, disk, isAlnum, formatBoard, boardId, cookie, saveDir, fuel);
    var pins := Listing(remote, boardId, cookie, fuel);
    if GetBoardInfo(remote, boardId, cookie).Failure? {
      assert o.reports == [StartReport];
    } else if pins.Failure? || |pins.value| == 0 {
      assert o.reports == [StartReport, ListingReport];
      assert Progressive(o.reports);
    } else {
      var dir := SaveDirOrDefault(saveDir, boardId);
      var store := StoreIn(remote.images, isAlnum, dir);
      var t := Items(store, disk, pins.value, |pins.value|);
      ItemReports(store, disk, pins.value, |pins.value|);
      ItemsAbort(store, disk, pins.value, |pins.value|);
      ItemsProgressive(|pins.value|, t.reports);
      if t.aborted.Some? {
        assert o.reports == [StartReport, ListingReport] + t.reports;
      } else {
        assert o.reports == [StartReport, ListingReport] + t.reports + [DoneReport];
      }
    }
  }

  /** One pass of the per-pin loop for the i-th (1-based) pin, which has
      `file.key`: the entry is appended, progress is reported, the download
      runs with its failure caught, and the entry's title is rewritten in
      place with the download's mark. */
  method DownloadItem(fs: FileSystem, images: (string, Headers) -> Option<seq<Byte>>, isAlnum: char -> bool,
                      pin: Pin, i: nat, total: nat, dir: string, gallery: seq<Entry>, reports: seq<Report>)
    returns (gallery': seq<Entry>, reports': seq<Report>, ghost s: Stored)
    requires 0 < i <= total && GalleryKey(pin).Some?
    modifies fs
    ensures s == StoreIn(images, isAlnum, dir)(old(fs.State()), pin) && fs.State() == s.disk
    ensures gallery' == gallery + [EntryFor(pin, s)]
    ensures reports' == reports + [ReportFor(i, total)]
  {
    var url := ImageUrl(GalleryKey(pin).value);
    var title := Title(pin);
    gallery' := gallery + [Entry(url, title)];
    reports' := reports + [Report(ItemFraction(i, total), ItemLabel(i, total))];
    ghost var fetched;
    var saved;
    saved, fetched := DownloadImage(fs, images, isAlnum, pin, dir);
    s := Stored(saved, fs.State(), fetched);
    var mark := if saved.Success? then Succeeded else Failed;
    gallery' := gallery'[|gallery'| - 1 := Entry(url, title + " " + mark)];
  }

  /** The per-pin loop of `download_board` over the mutable file system; a
      pin without `file.key` raises out of the loop, reported in
      `aborted`. */
  method DownloadItems(fs: FileSystem, images: (string, Headers) -> Option<seq<Byte>>, isAlnum: char -> bool,
                       pins: seq<Pin>, dir: string)
    returns (gallery: seq<Entry>, reports: seq<Report>, aborted: Option<string>, ghost fetched: seq<Request>)
    modifies fs
    ensures Tally(gallery, reports, fs.State(), fetched, aborted)
      == Items(StoreIn(images, isAlnum, dir), old(fs.State()), pins, |pins|)
  {
    ghost var disk := fs.State();
    ghost var store := StoreIn(images, isAlnum, dir);
    gallery, reports, aborted, fetched := [], [], None, [];
    var i := 0;
    while i < |pins|
      invariant i <= |pins|
      invariant Tally(gallery, reports, fs.State(), fetched, aborted) == Items(store, disk, pins, i)
      invariant aborted.None?
    {
      var pin := pins[i];
      if GalleryKey(pin).None? {
        aborted := Some(KeyErrorText(pin));
        AbortedStays(store, disk, pins, i + 1, |pins|);
        return;
      }
      ghost var s;
      gallery, reports, s := DownloadItem(fs, images, isAlnum, pin, i + 1, |pins|, dir, gallery, reports);
      fetched := fetched + s.fetched;
      ItemsNext(store, disk, pins, i);
      i := i + 1;
    }
  }

  /** `download_board` over the mutable file system. */
  method DownloadBoard(remote: Remote, fs: FileSystem, isAlnum: char -> bool, formatBoard: Board -> string,
                       boardId: string, cookie: Option<string>, saveDir: Option<string>, fuel: nat)
    returns (gallery: seq<Entry>, info: string, status: string, reports: seq<Report>, ghost fetched: seq<Request>)
    modifies fs
    ensures Outcome(gallery, info, status, reports, fs.State(), fetched)
      == Run(remote, old(fs.State()), isAlnum, formatBoard, boardId, cookie, saveDir, fuel)
  {
    ghost var disk := fs.State();
    fetched := [];
    reports := [StartReport];
    var board := GetBoardInfo(remote, boardId, cookie);
    if board.Failure? {
      var msg := FailurePrefix + ("获取画板信息失败: " + ApiErrorText(board.error));
      return [], msg, msg, reports, fetched;
    }
    info := formatBoard(board.value);
    reports := reports + [ListingReport];
    assert reports == [StartReport, ListingReport];
    var pins := GetBoardPins(remote, boardId, cookie, fuel);
    assert pins == Listing(remote, boardId, cookie, fuel);
    if pins.Failure? {
      var msg := FailurePrefix + ListErrorText(pins.error);
      return [], msg, msg, reports, fetched;
    }
    if |pins.value| == 0 {
      var msg := FailurePrefix + NoPinsText;
      return [], msg, msg, reports, fetched;
    }
    var dir := SaveDirOrDefault(saveDir, boardId);
    var items, aborted;
    gallery, items, aborted, fetched := DownloadItems(fs, remote.images, isAlnum, pins.value, dir);
    assert Tally(gallery, items, fs.State(), fetched, aborted) == Items(StoreIn(remote.images, isAlnum, dir), disk, pins.value, |pins.value|);
    reports := reports + items;
    if aborted.Some? {
      var msg := FailurePrefix + aborted.value;
      return [], msg, msg, reports, fetched;
    }
    reports := reports + [DoneReport];
    status := DoneText(board.value.title, |pins.value|, dir);
  }
}
