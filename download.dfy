/**
 * DownloadFile (Program.cs:66-189): one file's do/while retry loop.
 *
 * The network is a function `net`: `net(k)` is what the k-th
 * `WebClient.DownloadFile` call for this file does. The CDN server number
 * that Program.cs:107 extracts with a regular expression and `int.Parse` is
 * the parameter `serverNumber` (`None` when that line throws).
 */
module Download {
  import opened Wrappers
  import opened StringCut
  import opened UrlEncoding
  import opened Files

  /** Program.cs:17. */
  const DOWNLOAD_RETRIES: nat := 5

  /** The effect of one `WebClient.DownloadFile` call. */
  datatype Response =
      /** The transfer completed, leaving `file` bytes on disk (or no file), with this content-type header. */
    | Delivered(file: Option<nat>, contentType: Option<string>)
      /** The transfer threw; `unavailable` when the message contains "(503)"; it may leave a partial file. */
    | Failed(unavailable: bool, file: Option<nat>)

  /** How one pass of the loop body ended: which handler ran, or the success return. */
  datatype Outcome = Ok | SizeMismatch(found: nat) | Unavailable503 | OtherError

  /** The URLs one pass requests: the download URL, then possibly the fallback URL. */
  type Requests = s: seq<string> | 1 <= |s| <= 2 witness [""]

  /** One pass of the try block: its outcome, the disk afterwards and the URLs requested. */
  datatype Attempt = Attempt(outcome: Outcome, files: map<string, nat>, urls: Requests)

  /**
   * The process-wide ManualResetEvent (Program.cs:22). With one worker the
   * gate is always open when WaitOne is reached; `trips` counts Resets.
   */
  class Gate {
    var open: bool
    ghost var trips: nat

    constructor ()
      ensures open && trips == 0
    {
      open := true;
      trips := 0;
    }

    /** `WaitOne`: a single worker never waits on a closed gate. */
    method WaitOne()
      requires open
      ensures open
    {
    }

    method Reset()
      modifies this
      ensures !open && trips == old(trips) + 1
    {
      open := false;
      trips := trips + 1;
    }

    method Set()
      modifies this
      ensures open && trips == old(trips)
    {
      open := true;
    }
  }

  predicate IsDecimalDigit(c: char)
  {
    '0' <= c <= '9'
  }

  function DigitOf(c: char): nat
    requires IsDecimalDigit(c)
  {
    c as int - '0' as int
  }

  function DecimalValue(s: string): nat
    requires forall i :: 0 <= i < |s| ==> IsDecimalDigit(s[i])
  {
    if s == [] then 0 else 10 * DecimalValue(s[..|s| - 1]) + DigitOf(s[|s| - 1])
  }

  /** The decimal numeral C# string interpolation prints for a non-negative int. */
  function Decimal(n: nat): (r: string)
    ensures 1 <= |r| && forall i :: 0 <= i < |r| ==> IsDecimalDigit(r[i])
    ensures DecimalValue(r) == n
    ensures |r| > 1 ==> r[0] != '0'
    decreases n
  {
    var digit := ('0' as int + n % 10) as char;
    if n < 10 then [digit]
    else
      var high := Decimal(n / 10);
      var r := high + [digit];
      assert r[..|r| - 1] == high;
      r
  }

  /** The download URL (Program.cs:75): the CDN, '/', the encoded name. */
  function DownloadUrl(file: AlbumFile): string
  {
    file.cdn + "/" + Encode(file.name)
  }

  /** The direct-media URL for a landing page (Program.cs:111), with the name NOT encoded. */
  function FallbackUrl(serverNumber: nat, name: string): string
  {
    "https://media-files" + Decimal(serverNumber) + ".bunkr.is/" + name
  }

  /**
   * After the CDN and '/', the download URL decodes back to the file name
   * when the name's characters are below U+0100.
   */
  lemma DownloadUrlDecodes(file: AlbumFile)
    requires forall i :: 0 <= i < |file.name| ==> file.name[i] as int < 0x100
    ensures var url := DownloadUrl(file);
      && |file.cdn| + 1 <= |url| && url[..|file.cdn| + 1] == file.cdn + "/"
      && Decode(url[|file.cdn| + 1..]) == file.name
  {
    var url := DownloadUrl(file);
    assert url[|file.cdn| + 1..] == Encode(file.name);
    assert url[..|file.cdn| + 1] == file.cdn + "/";
    DecodeEncode(file.name);
  }

  /** The fallback URL ends with the raw file name behind a fixed host template. */
  lemma FallbackUrlShape(serverNumber: nat, name: string)
    ensures var url := FallbackUrl(serverNumber, name); var d := Decimal(serverNumber);
      && url[..19] == "https://media-files"
      && url[19..19 + |d|] == d && DecimalValue(url[19..19 + |d|]) == serverNumber
      && url[19 + |d|..|url| - |name|] == ".bunkr.is/"
      && url[|url| - |name|..] == name
  {
    var d := Decimal(serverNumber);
    var url := FallbackUrl(serverNumber, name);
    assert url == "https://media-files" + d + ".bunkr.is/" + name;
    assert |url| == 19 + |d| + 10 + |name|;
  }

  /** `content_type.StartsWith("text/html")` (Program.cs:101), taken as an ordinal prefix test. */
  predicate IsHtml(contentType: string)
  {
    |"text/html"| <= |contentType| && contentType[..|"text/html"|] == "text/html"
  }

  /** The FileNotFoundException message (Program.cs:133). */
  function NotFoundMessage(name: string): string
  {
    "Downloaded file " + name + " not found. How did we get here?"
  }

  /** Which catch clause takes a thrown transfer (Program.cs:148, 162). */
  function ErrorOutcome(unavailable: bool): (o: Outcome)
    ensures o.Unavailable503? <==> unavailable
    ensures o.OtherError? <==> !unavailable
  {
    if unavailable then Unavailable503 else OtherError
  }

  /**
   * The handler the validation that closes the try block reaches
   * (Program.cs:124-140): TestFile with deletion; a wrong size throws
   * InvalidDataException, a missing file a FileNotFoundException whose
   * message names the file, so a name containing "(503)" sends it to the
   * 503 handler.
   */
  function Verdict(files: map<string, nat>, file: AlbumFile, path: string): (o: Outcome)
    ensures o.Ok? <==> Passes(files, file, path)
    ensures o.SizeMismatch? <==> path in files && !Passes(files, file, path)
    ensures o.SizeMismatch? ==> o.found == files[path]
    ensures path !in files ==>
      o == if Contains(NotFoundMessage(file.name), "(503)") then Unavailable503 else OtherError
  {
    match Probe(files, path)
    case None => ErrorOutcome(IndexOf(NotFoundMessage(file.name), "(503)") >= 0)
    case Some(n) => if n == file.size then Ok else SizeMismatch(n)
  }

  /** The validation as a pass's result: its verdict, the disk TestFile leaves, the URLs requested. */
  function Check(files: map<string, nat>, file: AlbumFile, path: string, urls: Requests): (a: Attempt)
    ensures a.urls == urls
    ensures a.outcome.Ok? <==> Passes(files, file, path)
    ensures a.outcome.SizeMismatch? <==> path in files && !Passes(files, file, path)
    ensures a.outcome.SizeMismatch? ==> a.outcome.found == files[path]
    ensures a.files == AfterTest(files, file, path, true)
  {
    Attempt(Verdict(files, file, path), AfterTest(files, file, path, true), urls)
  }

  /**
   * The landing-page branch (Program.cs:101-121): with a server number,
   * delete the page and transfer again from the fallback URL, whose
   * content type is not looked at; without one, int.Parse throws before
   * anything is deleted.
   */
  function Fallback(got: map<string, nat>, file: AlbumFile, path: string, fileUrl: string,
                    net: nat -> Response, k: nat, serverNumber: Option<nat>): (a: Attempt)
    ensures a.urls[0] == fileUrl
    ensures |a.urls| == 2 <==> serverNumber.Some?
    ensures |a.urls| == 2 ==> a.urls[1] == FallbackUrl(serverNumber.value, file.name)
    ensures a.outcome.Ok? ==> Passes(a.files, file, path)
    ensures a.outcome.SizeMismatch? ==> path !in a.files && a.outcome.found != file.size
    ensures a.files - {path} == got - {path}
    ensures serverNumber.None? ==> a.outcome == OtherError && a.files == got
    ensures serverNumber.Some? ==>
      var second := net(k + 1); var got2 := Stored(got - {path}, path, second.file);
      && (second.Failed? ==> a.outcome == ErrorOutcome(second.unavailable) && a.files == got2)
      && (second.Delivered? ==> a.outcome == Verdict(got2, file, path) && a.files == AfterTest(got2, file, path, true))
  {
    if serverNumber.None? then Attempt(OtherError, got, [fileUrl])
    else
      var tryUrl := FallbackUrl(serverNumber.value, file.name);
      var second := net(k + 1);
      var got2 := Stored(got - {path}, path, second.file);
      assert got2 - {path} == got - {path};
      match second
      case Failed(unavailable, _) => Attempt(ErrorOutcome(unavailable), got2, [fileUrl, tryUrl])
      case Delivered(_, _) => Check(got2, file, path, [fileUrl, tryUrl])
  }

  /**
   * One pass of the loop body up to the end of the catch clauses
   * (Program.cs:80-168): delete any file at the path, transfer, and on a
   * landing page go to Fallback.
   */
  function TryDownload(files: map<string, nat>, file: AlbumFile, path: string, fileUrl: string,
                       net: nat -> Response, k: nat, serverNumber: Option<nat>): (a: Attempt)
    ensures a.urls[0] == fileUrl
    ensures |a.urls| == 2 ==> serverNumber.Some? && a.urls[1] == FallbackUrl(serverNumber.value, file.name)
    ensures a.outcome.Ok? ==> Passes(a.files, file, path)
    ensures a.outcome.SizeMismatch? ==> path !in a.files && a.outcome.found != file.size
    ensures a.files - {path} == files - {path}
    ensures var first := net(k); var got := Stored(files - {path}, path, first.file);
      && (first.Failed? ==> a == Attempt(ErrorOutcome(first.unavailable), got, [fileUrl]))
      && (first.Delivered? && first.contentType.None? ==> a == Attempt(OtherError, got, [fileUrl]))
      && (first.Delivered? && first.contentType.Some? && !IsHtml(first.contentType.value) ==>
            && a.urls == [fileUrl] && a.outcome == Verdict(got, file, path)
            && a.files == AfterTest(got, file, path, true))
      && (first.Delivered? && first.contentType.Some? && IsHtml(first.contentType.value) ==>
            a == Fallback(got, file, path, fileUrl, net, k, serverNumber))
  {
    var start := files - {path};
    var first := net(k);
    var got := Stored(start, path, first.file);
    assert got - {path} == files - {path};
    match first
    case Failed(unavailable, _) => Attempt(ErrorOutcome(unavailable), got, [fileUrl])
    case Delivered(_, contentType) =>
      if contentType.None? then Attempt(OtherError, got, [fileUrl])
      else if !IsHtml(contentType.value) then Check(got, file, path, [fileUrl])
      else Fallback(got, file, path, fileUrl, net, k, serverNumber)
  }

  /** Every attempt starts by deleting the file at the path, so what was there does not matter. */
  lemma TryDownloadIgnoresExistingFile(files: map<string, nat>, file: AlbumFile, path: string, fileUrl: string,
                                       net: nat -> Response, k: nat, serverNumber: Option<nat>)
    ensures TryDownload(files, file, path, fileUrl, net, k, serverNumber)
         == TryDownload(files - {path}, file, path, fileUrl, net, k, serverNumber)
  {
    assert files - {path} == (files - {path}) - {path};
  }

  /** What one pass of the try block does from a disk and a transfer index. */
  type AttemptFn = (map<string, nat>, nat) -> Attempt

  /**
   * The loop's state between passes: the disk, the transfers made so far
   * (`k`), `retryCount`, the outcomes and URLs so far, whether the loop has
   * ended and whether it ended by the success return.
   */
  datatype Progress = Progress(files: map<string, nat>, k: nat, retryCount: nat, outcomes: seq<Outcome>,
                               urls: seq<string>, done: bool, succeeded: bool)

  /** The state on entry (Program.cs:68-70): nothing counted, nothing requested. */
  function Start(files: map<string, nat>): Progress
  {
    Progress(files, 0, 0, [], [], false, false)
  }

  /**
   * One pass of the do/while body (Program.cs:80-187): a success returns at
   * once (139); otherwise the file is deleted (171-174), the count goes up
   * (177) and the loop ends after an OtherError or once the count exceeds
   * DOWNLOAD_RETRIES (180).
   */
  function Step(attempt: AttemptFn, path: string, s: Progress): Progress
  {
    var a := attempt(s.files, s.k);
    var outcomes := s.outcomes + [a.outcome];
    var urls := s.urls + a.urls;
    var k := s.k + |a.urls|;
    if a.outcome.Ok? then Progress(a.files, k, s.retryCount, outcomes, urls, true, true)
    else
      var count := s.retryCount + 1;
      Progress(a.files - {path}, k, count, outcomes, urls, a.outcome.OtherError? || count > DOWNLOAD_RETRIES, false)
  }

  /** The loop (Program.cs:78-188) run from `s` to its end. */
  function RetryLoop(attempt: AttemptFn, path: string, s: Progress): (r: Progress)
    requires s.done || s.retryCount <= DOWNLOAD_RETRIES
    ensures r.done
    decreases DOWNLOAD_RETRIES + 1 - s.retryCount, if s.done then 0 else 1
  {
    if s.done then s else RetryLoop(attempt, path, Step(attempt, path, s))
  }

  /** The number of 503 passes among `os`: each one resets the gate once (Program.cs:153). */
  function Overloads(os: seq<Outcome>): (r: nat)
    ensures r <= |os|
    ensures r == 0 <==> forall i :: 0 <= i < |os| ==> !os[i].Unavailable503?
  {
    if os == [] then 0
    else Overloads(os[..|os| - 1]) + (if os[|os| - 1].Unavailable503? then 1 else 0)
  }

  lemma OverloadsAppend(os: seq<Outcome>, o: Outcome)
    ensures Overloads(os + [o]) == Overloads(os) + (if o.Unavailable503? then 1 else 0)
  {
    assert (os + [o])[..|os|] == os;
  }

  /** A failure the loop retries after. */
  predicate Retryable(o: Outcome)
  {
    o.SizeMismatch? || o.Unavailable503?
  }

  /**
   * How a finished loop has ended: between one and DOWNLOAD_RETRIES + 1
   * passes, success exactly when the last one was Ok, and a failure other
   * than OtherError only once the whole budget is spent.
   */
  ghost predicate Finished(s: Progress)
  {
    && 1 <= |s.outcomes| <= DOWNLOAD_RETRIES + 1
    && (s.succeeded <==> s.outcomes[|s.outcomes| - 1].Ok?)
    && (!s.succeeded && !s.outcomes[|s.outcomes| - 1].OtherError? ==> |s.outcomes| == DOWNLOAD_RETRIES + 1)
  }

  /**
   * The loop's bookkeeping: one or two requests a pass, every pass but the
   * last retryable, a running loop has counted each of its passes and is
   * within budget, and a finished one is Finished.
   */
  ghost predicate Counted(s: Progress)
  {
    && |s.outcomes| <= |s.urls| <= 2 * |s.outcomes|
    && (forall i :: 0 <= i < |s.outcomes| - 1 ==> Retryable(s.outcomes[i]))
    && (!s.done ==>
          && |s.outcomes| == s.retryCount <= DOWNLOAD_RETRIES && !s.succeeded
          && (s.outcomes != [] ==> Retryable(s.outcomes[|s.outcomes| - 1])))
    && (s.done ==> Finished(s))
  }

  lemma StartCounted(files: map<string, nat>)
    ensures Counted(Start(files)) && !Start(files).done
  {
  }

  /** A pass keeps the bookkeeping and extends what was recorded. */
  lemma StepCounted(attempt: AttemptFn, path: string, s: Progress)
    requires Counted(s) && !s.done
    ensures var t := Step(attempt, path, s);
      && Counted(t)
      && |s.outcomes| < |t.outcomes| && t.outcomes[..|s.outcomes|] == s.outcomes
      && |s.urls| < |t.urls| && t.urls[..|s.urls|] == s.urls
  {
    var t := Step(attempt, path, s);
    assert t.outcomes[..|s.outcomes|] == s.outcomes;
    assert t.urls[..|s.urls|] == s.urls;
  }

  /** The bookkeeping holds to the end of the loop, which only extends what was recorded. */
  lemma {:induction false} RetryLoopCounted(attempt: AttemptFn, path: string, s: Progress)
    requires Counted(s)
    ensures var r := RetryLoop(attempt, path, s);
      && Counted(r) && Finished(r)
      && |s.outcomes| <= |r.outcomes| && r.outcomes[..|s.outcomes|] == s.outcomes
      && |s.urls| <= |r.urls| && r.urls[..|s.urls|] == s.urls
    decreases DOWNLOAD_RETRIES + 1 - s.retryCount, if s.done then 0 else 1
  {
    if !s.done {
      var t := Step(attempt, path, s);
      StepCounted(attempt, path, s);
      RetryLoopCounted(attempt, path, t);
      var r := RetryLoop(attempt, path, t);
      assert r.outcomes[..|s.outcomes|] == r.outcomes[..|t.outcomes|][..|s.outcomes|];
      assert r.urls[..|s.urls|] == r.urls[..|t.urls|][..|s.urls|];
    }
  }

  /**
   * Every pass touches only `path`, and reports Ok only when the file there
   * has the expected size.
   */
  ghost predicate TouchesOnly(attempt: AttemptFn, file: AlbumFile, path: string)
  {
    forall files, k ::
      && attempt(files, k).files - {path} == files - {path}
      && (attempt(files, k).outcome.Ok? ==> Passes(attempt(files, k).files, file, path))
  }

  /**
   * The disk, against the disk `files0` on entry: nothing but `path` has
   * changed, a success leaves a file of the expected size there, and after
   * a failed pass nothing is there.
   */
  ghost predicate Kept(s: Progress, files0: map<string, nat>, file: AlbumFile, path: string)
  {
    && s.files - {path} == files0 - {path}
    && (s.succeeded ==> Passes(s.files, file, path))
    && (!s.succeeded && s.outcomes != [] ==> path !in s.files)
  }

  lemma {:induction false} RetryLoopKept(attempt: AttemptFn, file: AlbumFile, path: string,
                                         s: Progress, files0: map<string, nat>)
    requires s.done || s.retryCount <= DOWNLOAD_RETRIES
    requires TouchesOnly(attempt, file, path)
    requires Kept(s, files0, file, path) && !s.succeeded
    ensures Kept(RetryLoop(attempt, path, s), files0, file, path)
    decreases DOWNLOAD_RETRIES + 1 - s.retryCount, if s.done then 0 else 1
  {
    if !s.done {
      var t := Step(attempt, path, s);
      var a := attempt(s.files, s.k);
      assert (a.files - {path}) - {path} == files0 - {path};
      assert Kept(t, files0, file, path);
      if !t.done {
        RetryLoopKept(attempt, file, path, t, files0);
      }
    }
  }

  /** The pass TryDownload models for this file, as a function of the disk and the transfer index. */
  function AttemptOf(file: AlbumFile, path: string, fileUrl: string, net: nat -> Response,
                     serverNumber: Option<nat>): AttemptFn
  {
    (files: map<string, nat>, k: nat) => TryDownload(files, file, path, fileUrl, net, k, serverNumber)
  }

  /** TryDownload touches only the path and reports Ok only for a passing file. */
  lemma AttemptOfBehaves(file: AlbumFile, path: string, fileUrl: string, net: nat -> Response,
                         serverNumber: Option<nat>)
    ensures TouchesOnly(AttemptOf(file, path, fileUrl, net, serverNumber), file, path)
  {
    var attempt := AttemptOf(file, path, fileUrl, net, serverNumber);
    forall files, k
      ensures attempt(files, k).files - {path} == files - {path}
      ensures attempt(files, k).outcome.Ok? ==> Passes(attempt(files, k).files, file, path)
    {
      var a := TryDownload(files, file, path, fileUrl, net, k, serverNumber);
      assert attempt(files, k) == a;
    }
  }

  /** A whole DownloadFile call on a disk, storing the file at `path` (Program.cs:76). */
  function DownloadRun(files: map<string, nat>, file: AlbumFile, path: string,
                       net: nat -> Response, serverNumber: Option<nat>): Progress
  {
    RetryLoop(AttemptOf(file, path, DownloadUrl(file), net, serverNumber), path, Start(files))
  }

  /**
   * The loop's promises about its passes, for any pass function: at most
   * DOWNLOAD_RETRIES + 1 passes, every one but the last a size mismatch or
   * a 503, success exactly when the last pass was Ok, a failure other than
   * OtherError only after the whole budget, one or two requests a pass, the
   * first request being the first pass's.
   */
  lemma LoopOutcomes(files: map<string, nat>, attempt: AttemptFn, path: string)
    ensures var r := RetryLoop(attempt, path, Start(files));
      && 1 <= |r.outcomes| <= DOWNLOAD_RETRIES + 1
      && (forall i :: 0 <= i < |r.outcomes| - 1 ==> r.outcomes[i].SizeMismatch? || r.outcomes[i].Unavailable503?)
      && (r.succeeded <==> r.outcomes[|r.outcomes| - 1].Ok?)
      && (!r.succeeded && !r.outcomes[|r.outcomes| - 1].OtherError? ==> |r.outcomes| == DOWNLOAD_RETRIES + 1)
      && |r.outcomes| <= |r.urls| <= 2 * |r.outcomes|
      && r.urls[0] == attempt(files, 0).urls[0]
  {
    var s := Start(files);
    var t := Step(attempt, path, s);
    assert t.urls == attempt(files, 0).urls;
    StartCounted(files);
    StepCounted(attempt, path, s);
    RetryLoopCounted(attempt, path, t);
    var r := RetryLoop(attempt, path, t);
    assert RetryLoop(attempt, path, s) == r;
    assert r.urls[0] == r.urls[..|t.urls|][0];
  }

  /**
   * The loop's promises about the disk, for a pass function that touches
   * only `path`: a success leaves a file of exactly the expected size, a
   * failure leaves nothing at the path, and no other path is touched.
   */
  lemma LoopDisk(files: map<string, nat>, attempt: AttemptFn, file: AlbumFile, path: string)
    requires TouchesOnly(attempt, file, path)
    ensures var r := RetryLoop(attempt, path, Start(files));
      && (r.succeeded ==> Passes(r.files, file, path))
      && (!r.succeeded ==> path !in r.files)
      && r.files - {path} == files - {path}
  {
    LoopOutcomes(files, attempt, path);
    RetryLoopKept(attempt, file, path, Start(files), files);
  }

  /** What DownloadFile promises (LoopOutcomes, LoopDisk), its first request going to the download URL. */
  lemma DownloadRunProperties(files: map<string, nat>, file: AlbumFile, path: string,
                              net: nat -> Response, serverNumber: Option<nat>)
    ensures var r := DownloadRun(files, file, path, net, serverNumber);
      && 1 <= |r.outcomes| <= DOWNLOAD_RETRIES + 1
      && (forall i :: 0 <= i < |r.outcomes| - 1 ==> r.outcomes[i].SizeMismatch? || r.outcomes[i].Unavailable503?)
      && (r.succeeded <==> r.outcomes[|r.outcomes| - 1].Ok?)
      && (!r.succeeded && !r.outcomes[|r.outcomes| - 1].OtherError? ==> |r.outcomes| == DOWNLOAD_RETRIES + 1)
      && |r.outcomes| <= |r.urls| <= 2 * |r.outcomes|
      && r.urls[0] == DownloadUrl(file)
      && (r.succeeded ==> Passes(r.files, file, path))
      && (!r.succeeded ==> path !in r.files)
      && r.files - {path} == files - {path}
  {
    var attempt := AttemptOf(file, path, DownloadUrl(file), net, serverNumber);
    AttemptOfBehaves(file, path, DownloadUrl(file), net, serverNumber);
    LoopOutcomes(files, attempt, path);
    LoopDisk(files, attempt, file, path);
    assert attempt(files, 0).urls[0] == DownloadUrl(file);
  }

  /**
   * A transfer that delivers a wrong-sized file, directly or, on a landing
   * page with a known server number, again from the fallback URL, makes
   * the pass a size mismatch.
   */
  lemma MismatchAttempt(files: map<string, nat>, file: AlbumFile, path: string, fileUrl: string,
                        net: nat -> Response, k: nat, serverNumber: Option<nat>, n: nat, contentType: string)
    requires n != file.size
    requires !IsHtml(contentType) || serverNumber.Some?
    requires net(k) == Delivered(Some(n), Some(contentType))
    requires IsHtml(contentType) ==> net(k + 1) == Delivered(Some(n), Some(contentType))
    ensures TryDownload(files, file, path, fileUrl, net, k, serverNumber).outcome == SizeMismatch(n)
  {
  }

  /** When every pass is the same size mismatch, every recorded pass is that mismatch. */
  lemma {:induction false} RetryLoopAllMismatches(attempt: AttemptFn, path: string, s: Progress, n: nat)
    requires s.done || s.retryCount <= DOWNLOAD_RETRIES
    requires forall files, j :: attempt(files, j).outcome == SizeMismatch(n)
    requires !s.succeeded && forall i :: 0 <= i < |s.outcomes| ==> s.outcomes[i] == SizeMismatch(n)
    ensures var r := RetryLoop(attempt, path, s);
      !r.succeeded && forall i :: 0 <= i < |r.outcomes| ==> r.outcomes[i] == SizeMismatch(n)
    decreases DOWNLOAD_RETRIES + 1 - s.retryCount, if s.done then 0 else 1
  {
    if !s.done {
      var t := Step(attempt, path, s);
      assert t.outcomes == s.outcomes + [SizeMismatch(n)];
      RetryLoopAllMismatches(attempt, path, t, n);
    }
  }

  /**
   * When every transfer delivers the same wrong-sized file, DownloadFile
   * gives up after exactly DOWNLOAD_RETRIES + 1 size mismatches and leaves
   * no file at the path.
   */
  lemma AlwaysMismatchAbandons(files: map<string, nat>, file: AlbumFile, path: string,
                               net: nat -> Response, serverNumber: Option<nat>, n: nat, contentType: string)
    requires n != file.size
    requires !IsHtml(contentType) || serverNumber.Some?
    requires forall j :: net(j) == Delivered(Some(n), Some(contentType))
    ensures var r := DownloadRun(files, file, path, net, serverNumber);
      && !r.succeeded
      && |r.outcomes| == DOWNLOAD_RETRIES + 1
      && (forall i :: 0 <= i < |r.outcomes| ==> r.outcomes[i] == SizeMismatch(n))
      && path !in r.files
  {
    var attempt := AttemptOf(file, path, DownloadUrl(file), net, serverNumber);
    forall files', j | 0 <= j
      ensures attempt(files', j).outcome == SizeMismatch(n)
    {
      assert net(j) == Delivered(Some(n), Some(contentType)) && net(j + 1) == Delivered(Some(n), Some(contentType));
      MismatchAttempt(files', file, path, DownloadUrl(file), net, j, serverNumber, n, contentType);
    }
    RetryLoopAllMismatches(attempt, path, Start(files), n);
    DownloadRunProperties(files, file, path, net, serverNumber);
  }

  /** A transfer that throws with "(503)" makes a 503 pass that leaves no file at the path. */
  lemma UnavailablePass(files: map<string, nat>, file: AlbumFile, path: string, fileUrl: string,
                        net: nat -> Response, k: nat, serverNumber: Option<nat>)
    requires net(k) == Failed(true, None)
    ensures TryDownload(files, file, path, fileUrl, net, k, serverNumber)
         == Attempt(Unavailable503, files - {path}, [fileUrl])
  {
  }

  /** A transfer that delivers a non-HTML file of the expected size makes an Ok pass that keeps it. */
  lemma GoodPass(files: map<string, nat>, file: AlbumFile, path: string, fileUrl: string,
                 net: nat -> Response, k: nat, serverNumber: Option<nat>, contentType: string, size: nat)
    requires !IsHtml(contentType) && size == file.size
    requires net(k) == Delivered(Some(size), Some(contentType))
    ensures TryDownload(files, file, path, fileUrl, net, k, serverNumber)
         == Attempt(Ok, (files - {path})[path := size], [fileUrl])
  {
  }

  /**
   * A 503 on the first transfer and a good file on the second: two passes,
   * both to the download URL, and the file is in place.
   */
  lemma OverloadThenSuccess(files: map<string, nat>, file: AlbumFile, path: string,
                            net: nat -> Response, serverNumber: Option<nat>, size: nat)
    requires size == file.size
    requires net(0) == Failed(true, None)
    requires net(1) == Delivered(Some(size), Some("application/octet-stream"))
    ensures var r := DownloadRun(files, file, path, net, serverNumber);
      && r.succeeded && r.outcomes == [Unavailable503, Ok] && r.urls == [DownloadUrl(file), DownloadUrl(file)]
      && r.files == (files - {path})[path := size]
  {
    var url := DownloadUrl(file);
    var attempt := AttemptOf(file, path, url, net, serverNumber);
    var cleaned := files - {path};
    assert attempt(files, 0) == Attempt(Unavailable503, cleaned, [url]) by {
      UnavailablePass(files, file, path, url, net, 0, serverNumber);
    }
    assert attempt(cleaned, 1) == Attempt(Ok, cleaned[path := size], [url]) by {
      assert !IsHtml("application/octet-stream") by {
        assert "application/octet-stream"[0] == 'a';
      }
      GoodPass(cleaned, file, path, url, net, 1, serverNumber, "application/octet-stream", size);
      assert cleaned - {path} == cleaned;
    }
    var s1 := Step(attempt, path, Start(files));
    assert s1 == Progress(cleaned, 1, 1, [Unavailable503], [url], false, false) by {
      assert cleaned - {path} == cleaned;
    }
    var s2 := Step(attempt, path, s1);
    assert s2 == Progress(cleaned[path := size], 2, 1, [Unavailable503, Ok], [url, url], true, true);
    assert RetryLoop(attempt, path, Start(files)) == RetryLoop(attempt, path, s1) == RetryLoop(attempt, path, s2) == s2;
  }

  /**
   * The content type of the fallback transfer is never looked at: a landing
   * page served again from the fallback URL with exactly the expected size
   * is accepted as the file.
   */
  lemma FallbackContentTypeUnchecked(files: map<string, nat>, file: AlbumFile, path: string,
                                     net: nat -> Response, serverNumber: nat, size: nat)
    requires size == file.size
    requires net(0) == Delivered(Some(size), Some("text/html")) && net(1) == Delivered(Some(size), Some("text/html"))
    ensures var r := DownloadRun(files, file, path, net, Some(serverNumber));
      && r.succeeded && r.outcomes == [Ok] && r.urls == [DownloadUrl(file), FallbackUrl(serverNumber, file.name)]
  {
    assert IsHtml("text/html");
    var a := TryDownload(files, file, path, DownloadUrl(file), net, 0, Some(serverNumber));
    assert a.outcome == Ok && a.urls == [DownloadUrl(file), FallbackUrl(serverNumber, file.name)];
    var attempt := AttemptOf(file, path, DownloadUrl(file), net, Some(serverNumber));
    assert attempt(files, 0) == a;
    var s1 := Step(attempt, path, Start(files));
    assert s1 == Progress(a.files, 2, 0, [Ok], a.urls, true, true);
    assert RetryLoop(attempt, path, Start(files)) == RetryLoop(attempt, path, s1) == s1;
  }

  /**
   * The validation that closes the try block (Program.cs:124-140) and the
   * catch clause the thrown exception reaches.
   */
  method Validate(disk: Disk, file: AlbumFile, localFilePath: string) returns (outcome: Outcome)
    modifies disk
    ensures outcome == Verdict(old(disk.files), file, localFilePath)
    ensures disk.files == AfterTest(old(disk.files), file, localFilePath, true)
  {
    var ok, detectedFileLength := TestFile(disk, file, localFilePath, true);
    if ok {
      outcome := Ok;
    } else if detectedFileLength.Some? {
      outcome := SizeMismatch(detectedFileLength.value);
    } else {
      outcome := ErrorOutcome(IndexOf(NotFoundMessage(file.name), "(503)") >= 0);
    }
  }

  /**
   * The loop body up to the end of the catch clauses (Program.cs:80-168),
   * with the gate closed and reopened around the 503 cooldown.
   */
  method TryOnce(disk: Disk, gate: Gate, file: AlbumFile, localFilePath: string, fileUrl: string,
                 net: nat -> Response, k: nat, serverNumber: Option<nat>)
    returns (outcome: Outcome, urls: Requests)
    requires gate.open
    modifies disk, gate
    ensures gate.open
    ensures gate.trips == old(gate.trips) + (if outcome.Unavailable503? then 1 else 0)
    ensures TryDownload(old(disk.files), file, localFilePath, fileUrl, net, k, serverNumber)
         == Attempt(outcome, disk.files, urls)
  {
    ghost var files0 := disk.files;
    if disk.Exists(localFilePath) {
      disk.Delete(localFilePath);
    }
    assert disk.files == files0 - {localFilePath};
    gate.WaitOne();
    var first := net(k);
    urls := [fileUrl];
    disk.Store(localFilePath, first.file);
    if first.Failed? {
      outcome := ErrorOutcome(first.unavailable);
    } else if first.contentType.None? {
      outcome := OtherError;
    } else if IsHtml(first.contentType.value) {
      outcome, urls := FallbackOnce(disk, gate, file, localFilePath, fileUrl, net, k, serverNumber);
    } else {
      outcome := Validate(disk, file, localFilePath);
    }
    if outcome.Unavailable503? {
      gate.Reset();
      gate.Set();
    }
  }

  /** The landing-page branch of the try block (Program.cs:101-140). */
  method FallbackOnce(disk: Disk, gate: Gate, file: AlbumFile, localFilePath: string, fileUrl: string,
                      net: nat -> Response, k: nat, serverNumber: Option<nat>)
    returns (outcome: Outcome, urls: Requests)
    requires gate.open
    modifies disk
    ensures Fallback(old(disk.files), file, localFilePath, fileUrl, net, k, serverNumber)
         == Attempt(outcome, disk.files, urls)
  {
    urls := [fileUrl];
    if serverNumber.None? {
      outcome := OtherError;
      return;
    }
    var tryUrl := FallbackUrl(serverNumber.value, file.name);
    disk.Delete(localFilePath);
    gate.WaitOne();
    var second := net(k + 1);
    urls := urls + [tryUrl];
    disk.Store(localFilePath, second.file);
    if second.Failed? {
      outcome := ErrorOutcome(second.unavailable);
    } else {
      outcome := Validate(disk, file, localFilePath);
    }
  }

  /**
   * The end of a failed pass (Program.cs:162-186): an OtherError aborts,
   * the file is deleted, the count goes up, and exceeding the budget aborts.
   */
  method EndPass(disk: Disk, localFilePath: string, outcome: Outcome, retryCount: nat)
    returns (abort: bool, count: nat)
    modifies disk
    ensures disk.files == old(disk.files) - {localFilePath}
    ensures count == retryCount + 1
    ensures abort <==> outcome.OtherError? || count > DOWNLOAD_RETRIES
  {
    abort := outcome.OtherError?;
    if disk.Exists(localFilePath) {
      disk.Delete(localFilePath);
    }
    count := retryCount + 1;
    if count > DOWNLOAD_RETRIES {
      abort := true;
    }
  }

  /**
   * DownloadFile (Program.cs:66-189). Returns the outcome of each pass, as
   * the log lines report them, and the URLs requested in order.
   */
  method DownloadFile(disk: Disk, gate: Gate, file: AlbumFile, localFolder: string,
                      net: nat -> Response, serverNumber: Option<nat>)
    returns (outcomes: seq<Outcome>, requested: seq<string>)
    requires gate.open
    modifies disk, gate
    ensures gate.open
    ensures gate.trips == old(gate.trips) + Overloads(outcomes)
    ensures var r := DownloadRun(old(disk.files), file, Combine(localFolder, file.name), net, serverNumber);
      disk.files == r.files && outcomes == r.outcomes && requested == r.urls
  {
    var retryCount: nat := 0;
    var abort := false;
    var encoded := HttpEncode(file.name);
    var fileUrl := file.cdn + "/" + encoded;
    var localFilePath := Combine(localFolder, file.name);
    ghost var total := DownloadRun(disk.files, file, localFilePath, net, serverNumber);
    ghost var attempt := AttemptOf(file, localFilePath, fileUrl, net, serverNumber);
    var k: nat := 0;
    outcomes, requested := [], [];
    while !abort
      invariant gate.open
      invariant gate.trips == old(gate.trips) + Overloads(outcomes)
      invariant !abort ==> retryCount <= DOWNLOAD_RETRIES
      invariant RetryLoop(attempt, localFilePath, Progress(disk.files, k, retryCount, outcomes, requested, abort, false))
             == total
      decreases DOWNLOAD_RETRIES + 1 - retryCount
    {
      ghost var before := Progress(disk.files, k, retryCount, outcomes, requested, false, false);
      var outcome, urls := TryOnce(disk, gate, file, localFilePath, fileUrl, net, k, serverNumber);
      assert attempt(before.files, k) == Attempt(outcome, disk.files, urls);
      ghost var after := Step(attempt, localFilePath, before);
      OverloadsAppend(outcomes, outcome);
      outcomes := outcomes + [outcome];
      requested := requested + urls;
      k := k + |urls|;
      if outcome.Ok? {
        assert after == Progress(disk.files, k, retryCount, outcomes, requested, true, true);
        return;
      }
      abort, retryCount := EndPass(disk, localFilePath, outcome, retryCount);
      assert after == Progress(disk.files, k, retryCount, outcomes, requested, abort, false);
    }
  }
}
