# BunkerIs-dl in Dafny

BunkerIs-dl is a command-line downloader for bunkr.is albums. For each album URL it:

1. scrapes the JSON blob embedded in the album page, behind the `__NEXT_DATA__` marker;
2. tests every listed file against the copy already on disk;
3. queues the files that are missing or have the wrong size;
4. downloads each queued file with a bounded retry loop.

The retry loop falls back to a direct media server when the CDN returns an HTML landing page. It pauses all workers after a "(503) Server Unavailable".

This project models the sequential core of `Program.cs` and proves what that code promises. The core is:

- the URL encoder (`ShouldEncode`, `HttpEncode`);
- the page scrapers (`CutFrom`, `CutTo`, `ExtractJson`);
- the two `TestFile` overloads;
- the `DownloadFile` retry loop;
- the loop in `Main` that fills the download queue.

One file per module:

| file | module | contents |
|---|---|---|
| `wrappers.dfy` | `Wrappers` | `Option` |
| `string_cut.dfy` | `StringCut` | ordinal `IndexOf`/`LastIndexOf`/`Substring`, `CutFrom`, `CutTo`, `ExtractJson` |
| `url_encoding.dfy` | `UrlEncoding` | `ShouldEncode`, the `X2` format, `HttpEncode` (a loop) with its specification `Encode`, a percent-decoder |
| `files.dfy` | `Files` | `AlbumFile`, the `Disk` class (path ↦ byte length), Windows `Path.Combine`, both `TestFile` methods |
| `download.dfy` | `Download` | one pass of the try block (`TryDownload`), the loop as a state machine (`Step`, `RetryLoop`), the imperative `DownloadFile` proved equal to it |
| `queue_fill.dfy` | `QueueFill` | the queue-filling loop (`FillQueue`) and its specification `Fill` |

Modelling choices:

- **Exceptions.** A C# call that throws is `None`, or the outcome of the `catch` clause that catches it.
- **Network.** Each `WebClient.DownloadFile` call is the parameter `net(k)`, for the k-th transfer of the file. A transfer either delivers (leaving a file of some length, or none, and a content-type header) or throws. A throw either carries "(503)" or not, and may leave a partial file.
- **Server number.** The number that the regular expression and `int.Parse` extract from the CDN host (Program.cs:107) is the parameter `serverNumber`. It is `None` when that line throws.
- **Pass outcomes.** Each pass ends as `Ok`, `SizeMismatch(found)`, `Unavailable503` or `OtherError`. These follow the success `return` and the three `catch` clauses.
- **Strings.** C# strings are UTF-16. A Dafny character above U+FFFF stands for its two surrogates, and each surrogate is escaped on its own. `IndexOf`, `LastIndexOf` and `StartsWith` are modelled as ordinal. `LastIndexOf("")` answers `|s| - 1`, as on .NET Framework.

The model follows the code in four places where a reader might expect otherwise:

- A 503 consumes a retry (Program.cs:177).
- The loop allows DOWNLOAD_RETRIES + 1 = 6 passes (Program.cs:180).
- The content type of the fallback transfer is never checked (Program.cs:120-124).
- Above U+00FF, each character the code escapes gets a three- or four-digit `X2` escape (Program.cs:222) that does not decode back, so "€" and " AC" both encode to "%20AC" (EuroCollides). The code copies letters and digits above U+00FF, and those would decode back; the model escapes them (see IsLetterOrDigit under "## Left out").

## Model

| member | source | states |
|---|---|---|
| StringCut.IndexOf | Program.cs:36 | -1 exactly when the needle does not occur; otherwise the first occurrence |
| StringCut.LastIndexOf | Program.cs:40 | -1 exactly when the needle does not occur; otherwise the last occurrence; .NET Framework's answer for an empty needle |
| StringCut.Substring | Program.cs:45 | defined exactly when the start lies in range; the result is the suffix from there |
| StringCut.CutFrom | Program.cs:31-46 | the suffix after the first (or last) occurrence; an empty needle searched from the end leaves the last character (nothing for an empty input); when the needle is absent, the suffix from one before the needle's length, or an exception past the end; the result is always a suffix |
| StringCut.CutTo | Program.cs:54-59 | throws exactly when the needle is absent; otherwise the prefix before the first occurrence |
| StringCut.CutFromLastHasNoOccurrence | Program.cs:31-46 | the suffix after the last occurrence holds no further occurrence |
| StringCut.CutToIsPrefixBeforeFirst | Program.cs:54-59 | the result followed by the needle is a prefix of the input; the result holds no occurrence |
| StringCut.ExtractJson | Program.cs:196-201 | definition: cut after the marker, then after the next '>', then up to the next '<'; its properties are the two lemmas below |
| StringCut.ExtractJsonBetween | Program.cs:196-201 | the result is the text strictly between the first '>' after the first marker and the next '<'; it holds no '<' |
| StringCut.NoMarker | Program.cs:18 | a page with no '_' before its last twelve characters holds no marker |
| StringCut.ExtractJsonWithoutMarkerBetween | Program.cs:43 | for every page without the marker, the result is the text strictly between the first '>' from offset 12 on and the next '<', through the -1 + 13 fall-through |
| StringCut.ExtractJsonWithoutMarker | Program.cs:43 | an example of the fall-through: one 15-character page without the marker yields "x" |
| StringCut.FolderNameIsLastSegment | Program.cs:248 | for every URL holding a '/', the folder name ends the URL right after a '/' and holds no '/' |
| StringCut.FolderNameFromAlbumUrl | Program.cs:248 | an example: the folder name of one album URL is its last path segment |
| UrlEncoding.IsLetterOrDigit | Program.cs:361 | definition: `char.IsLetterOrDigit` for code points below U+0100 |
| UrlEncoding.ShouldEncode | Program.cs:359-372 | '%' is always encoded; below U+0080, a character is copied exactly when it is an ASCII letter, a digit or one of `-_.()`; only characters below U+0100 are copied |
| UrlEncoding.HexX2 | Program.cs:222 | at least two upper-case hex digits whose value is the number; exactly two below 0x100; no leading zero beyond two digits |
| UrlEncoding.Utf16Units | Program.cs:212 | one unit for a BMP character, else a high and a low surrogate that recombine to the code point |
| UrlEncoding.EscapeUnits | Program.cs:222 | the escapes consist only of '%' and upper-case hex digits; one unit becomes '%' and its X2 numeral, two units two such escapes in order |
| UrlEncoding.EscapeUnitsShape | Program.cs:222 | an escape starts with '%' and two upper-case hex digits; one unit below 0x100 gives exactly '%' and two digits of its value |
| UrlEncoding.EncodeChar | Program.cs:214-223 | a character needing no encoding is copied; a BMP character needing encoding becomes '%' and the X2 numeral of its code; above U+FFFF, the X2 escapes of its two surrogates; below U+0100, exactly three characters carrying the code |
| UrlEncoding.EncodeAppend | Program.cs:212-224 | encoding a string plus one character appends that character's encoding |
| UrlEncoding.Encode | Program.cs:208-227 | definition: the concatenated EncodeChar of each character, in order; its properties are the lemmas below |
| UrlEncoding.HttpEncode | Program.cs:208-227 | the StringBuilder loop returns the character-by-character encoding of the input |
| UrlEncoding.EncodeAlphabet | Program.cs:208-227 | every output character is a copied character, '%' or an upper-case hex digit |
| UrlEncoding.EncodeUnchanged | Program.cs:208-227 | a string with no character to encode is returned unchanged |
| UrlEncoding.DecodeEncode | Program.cs:208-227 | percent-decoding the output gives back any input whose characters lie below U+0100 |
| UrlEncoding.Decode | Program.cs:222 | definition: an independent percent-decoder, '%' and two hex digits to the character with that code |
| UrlEncoding.EncodeInjective | Program.cs:208-227 | two different inputs below U+0100 never encode alike |
| UrlEncoding.HexX2Euro | Program.cs:222 | `X2` of U+20AC is the four digits "20AC" |
| UrlEncoding.EncodeEuro | Program.cs:208-227 | "€" encodes to "%20AC" |
| UrlEncoding.EncodeSpaceAC | Program.cs:208-227 | " AC" encodes to "%20AC" |
| UrlEncoding.DecodeSpaceAC | Program.cs:222 | "%20AC" decodes to " AC" |
| UrlEncoding.EuroCollides | Program.cs:208-227 | above U+00FF the round trip and injectivity fail as written: "€" and " AC" share one encoding, which decodes to " AC" |
| Files.Disk.constructor | Program.cs:398 | a disk holding the given files |
| Files.Disk.Exists | Program.cs:398 | definition: `File.Exists` is membership in the map |
| Files.Disk.Length | Program.cs:403 | definition: `FileInfo.Length` of an existing file |
| Files.Disk.Delete | Program.cs:409 | `File.Delete`: the path is gone and nothing else changes |
| Files.Disk.Store | Program.cs:94 | a transfer into the path leaves the given length there, or no file, and nothing else changes |
| Files.Stored | Program.cs:94 | the path is present exactly when a length was left; the length is that length; other paths are untouched |
| Files.Combine | Program.cs:76 | `Path.Combine`: a relative name follows the folder, joined by one '\\' unless the folder already ends in a separator or ':'; a rooted name or an empty folder gives the name; an empty name gives the folder |
| Files.CombineInjective | Program.cs:270 | distinct relative names in one folder get distinct local paths |
| Files.Probe | Program.cs:396-403 | `detectedFileLength` is null exactly when no file exists, and is otherwise its length |
| Files.Passes | Program.cs:405 | definition: TestFile's answer, a file of exactly `file.Size` bytes at the path |
| Files.AfterTest | Program.cs:405-410 | only the tested path can change; a passing file stays; with `delete`, the file remains exactly when it passes; without, nothing changes |
| Files.TestFile | Program.cs:394-413 | true exactly when a file of `file.Size` bytes exists; the length as Probe says; the disk as AfterTest says |
| Files.TestFileOnly | Program.cs:381-384 | the same answer and disk effect as TestFile |
| Download.DownloadUrl | Program.cs:75 | definition: CDN, '/', the encoded name; its shape is DownloadUrlDecodes |
| Download.FallbackUrl | Program.cs:111 | definition: the media-server template with the raw name; its shape is FallbackUrlShape |
| Download.IsHtml | Program.cs:101 | definition: an ordinal "text/html" prefix test |
| Download.NotFoundMessage | Program.cs:133 | definition: the FileNotFoundException message, which holds the file name |
| Download.Decimal | Program.cs:111 | a decimal numeral of the server number without leading zeros |
| Download.DownloadUrlDecodes | Program.cs:75 | the download URL is the CDN, '/', then text that decodes back to a name below U+0100 |
| Download.FallbackUrlShape | Program.cs:111 | the fallback URL is the fixed host template around the server's numeral, followed by the raw name |
| Download.ErrorOutcome | Program.cs:148-168 | a thrown exception reaches the 503 handler exactly when its message holds "(503)", otherwise the abort handler |
| Download.Verdict | Program.cs:124-140 | Ok exactly when TestFile passes; a size mismatch exactly when a wrong-sized file exists, carrying its length; a missing file reaches the 503 handler exactly when its message holds "(503)" |
| Download.Check | Program.cs:124-140 | Ok exactly when TestFile passes; a size mismatch exactly when a wrong-sized file exists, carrying its length; the disk as TestFile with deletion leaves it |
| Download.Fallback | Program.cs:101-121 | a second request is made exactly when there is a server number, to the fallback URL; without one, an abort with the disk as it was; a thrown second transfer reaches its catch clause; a delivered one gets Verdict and TestFile's deletion; only the path is touched |
| Download.TryDownload | Program.cs:80-168 | the first request goes to the download URL after any old file is deleted; a thrown transfer reaches its catch clause with one request; a missing content type aborts; a non-HTML delivery gets Verdict and TestFile's deletion with one request; an HTML one goes to Fallback; Ok only for a passing file; only the path is touched |
| Download.TryDownloadIgnoresExistingFile | Program.cs:82-85 | a pass does the same whatever file was at the path beforehand |
| Download.Step | Program.cs:162-187 | definition: one pass, then the success return or the delete, increment and abort test; its properties are StepCounted |
| Download.RetryLoop | Program.cs:78-188 | the do/while loop terminates from any in-budget state and ends finished |
| Download.StartCounted | Program.cs:68-70 | the entry state satisfies the loop's bookkeeping invariant |
| Download.StepCounted | Program.cs:162-186 | one pass keeps the bookkeeping invariant and only extends the outcomes and requests |
| Download.RetryLoopCounted | Program.cs:78-188 | the bookkeeping holds at the end: 1 to 6 passes, all but the last retryable, success exactly when the last is Ok |
| Download.RetryLoopKept | Program.cs:170-174 | the loop touches only the path; a success has a passing file; after a failure no file is there |
| Download.AttemptOfBehaves | Program.cs:80-168 | every pass touches only the path and reports Ok only for a passing file |
| Download.LoopOutcomes | Program.cs:176-188 | at most 6 passes; each pass before the last is a size mismatch or a 503; an OtherError stops early; anything else ends only after 6; one or two requests per pass |
| Download.LoopDisk | Program.cs:124-139 | success leaves exactly `file.Size` bytes at the path; failure leaves nothing there; no other file changes |
| Download.DownloadRun | Program.cs:66-189 | definition: the loop from the entry state with DownloadFile's own pass; its properties are DownloadRunProperties |
| Download.DownloadRunProperties | Program.cs:66-189 | LoopOutcomes and LoopDisk for DownloadFile's own pass, whose first request is the download URL |
| Download.MismatchAttempt | Program.cs:124-129 | a wrong-sized delivery, direct or via fallback, makes a size-mismatch pass |
| Download.RetryLoopAllMismatches | Program.cs:176-188 | when every pass mismatches, every recorded pass is that mismatch and the loop fails |
| Download.AlwaysMismatchAbandons | Program.cs:176-185 | a server that always sends the wrong size gets exactly 6 passes, and then the file is gone |
| Download.UnavailablePass | Program.cs:148-160 | a "(503)" throw makes a 503 pass with no file at the path |
| Download.GoodPass | Program.cs:124-139 | a non-HTML delivery of the right size is an Ok pass that keeps the file |
| Download.OverloadThenSuccess | Program.cs:148-177 | a 503 then a good file: two passes to the download URL, and the file is in place |
| Download.FallbackContentTypeUnchecked | Program.cs:101-124 | a landing page served again by the fallback URL, with the right size, is accepted |
| Download.Gate.constructor | Program.cs:22 | the gate starts open |
| Download.Gate.WaitOne | Program.cs:92 | a single worker passes an open gate |
| Download.Gate.Reset | Program.cs:153 | closes the gate |
| Download.Gate.Set | Program.cs:159 | reopens the gate |
| Download.Validate | Program.cs:124-135 | the outcome is Verdict's, and the disk as TestFile with deletion leaves it, computed through TestFile |
| Download.FallbackOnce | Program.cs:101-121 | the imperative landing-page branch does what Fallback says |
| Download.TryOnce | Program.cs:80-168 | the imperative try block does what TryDownload says; the gate stays open, with one reset per 503 |
| Download.EndPass | Program.cs:162-186 | deletes the file, increments the count, and aborts exactly on OtherError or an exceeded count |
| Download.Overloads | Program.cs:148-153 | the number of 503 passes; zero exactly when no pass was a 503, and never more than the passes |
| Download.DownloadFile | Program.cs:66-189 | returns the outcomes and requests, and leaves the disk, exactly as RetryLoop from the entry state says; the gate ends open, reset once per 503 pass |
| QueueFill.LocalPaths | Program.cs:270 | definition: an album file's local path is the folder combined with its name |
| QueueFill.LocalPathsDistinct | Program.cs:270 | distinct, non-empty, relative names give distinct local paths in a non-empty folder |
| QueueFill.Fill | Program.cs:268-288 | definition: the foreach loop one file at a time; its properties are FillDisk and FillQueueIsUnfinished |
| QueueFill.UnfinishedFail | Program.cs:276-287 | every queued candidate is an album file that fails TestFile |
| QueueFill.UnfinishedAppend | Program.cs:268-288 | the filter of a list plus one file is the filter of the list, then that file if it fails |
| QueueFill.WrongPathsAppend | Program.cs:268-288 | the wrong paths of a list plus one file are the list's, then that file's path if it fails |
| QueueFill.FillDisk | Program.cs:276-285 | the loop deletes exactly the wrong-sized files and changes nothing else |
| QueueFill.FillQueueIsUnfinished | Program.cs:268-288 | the queue is the order-preserving sublist of the album files that fail TestFile on entry |
| QueueFill.SkippedUntouched | Program.cs:276-280 | a file that passes on entry is not queued and keeps its length |
| QueueFill.SharedPathDeletesSkipped | Program.cs:276-285 | when a later album file of another size shares the path of one that passes, the passing file is skipped yet ends up deleted |
| QueueFill.FillQueue | Program.cs:268-288 | the imperative loop returns the queue, and leaves the disk, exactly as Fill says |

## Left out

- Concurrency is not modelled: the `Task.Run` worker pool, the `ConcurrentQueue`, and blocking on the `ManualResetEvent` (Program.cs:22, 291-306). With one worker the gate is always open at `WaitOne`; the model records only its resets.
- The `Task.Delay` cooldown (Program.cs:156) is wall-clock time.
- `WebClient` transfers, their headers and `DownloadString` (Program.cs:72, 94, 98, 103-104, 120, 252) are network I/O. The parameter `net` stands for them.
- The regular expression and `int.Parse` (Program.cs:107) are library calls. The parameter `serverNumber` stands for them.
- Newtonsoft JSON deserialisation (Program.cs:254) is not modelled. The DTO attributes of Json/PageData.cs are dropped, and so is the `Timestamp` field, which the downloader never reads.
- `Log`, the console status loop (Program.cs:310-356), directory creation and `Directory.GetCurrentDirectory` (Program.cs:249, 257-260) are I/O and environment.
- Combine: does not model `Path.Combine`'s exception for invalid path characters.
- UrlEncoding.IsLetterOrDigit is exact only below U+0100. Above that, every character counts as neither letter nor digit, because the Unicode category tables are not modelled. Lone surrogates cannot occur in a Dafny string.
- IndexOf and LastIndexOf are ordinal, but the source calls the culture-sensitive overloads. The same holds for `StartsWith("text/html")` (IsHtml).
- FillQueueIsUnfinished: requires the album files to have distinct local paths. When two entries share a path, testing the first one can delete the file the second one is tested against. LocalPathsDistinct gives the requirement for distinct relative names. FillDisk and FillQueue hold without it.
- SkippedUntouched: requires distinct local paths for the same reason. SharedPathDeletesSkipped shows the case: a later entry of another size at the same path deletes the file the first entry skipped.
- File-system calls never fail in the model. In the source, a throwing `File.Delete` at Program.cs:84 or 173 lies outside the try block and ends DownloadFile. A throw from TestFile's calls inside the try block would reach the catch clause its message selects; the message holds the path, so a path containing "(503)" would reach the 503 handler. Neither is modelled.
- DecodeEncode: holds only for names below U+0100. Above U+00FF, the escapes the code prints are three or four digits long, so the decoder cannot tell them from a two-digit escape followed by copied characters; EuroCollides exhibits it. Letters and digits above U+00FF, which the code copies and which would decode back, are excluded too, because the model escapes them.
- EncodeInjective: holds only below U+0100 for the same reasons; EuroCollides gives two names with one URL.
- Paths are compared as exact strings. On Windows, names that differ only in letter case name the same file. DistinctPaths and CombineInjective therefore speak of distinct strings, not distinct files.
- DownloadFile: the file length is a `long` and the count an `int`. Both are unbounded here, since neither can overflow within the six passes.
