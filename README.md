# ImageArchive core, modelled in Dafny

ImageArchive stores camera-trap and weather-station images from field sites: Sheep, Rockland, Spring,
Snake and Eldorado. Its parts are:

- **An HTTP API.** It searches the image records and builds zip archives of the images a client
  selects. There are two generations of it: the current `src/api` one and the older root-level one.
- **Ingestion programs.** They derive database records from image file names.
- **JPEG helper tools.** One sorts out broken files; the other walks the marker segments of each file.
- **A camera-position table.**
- **A frontend.** Its archive job record and theme switch are modelled.
- **A Python script.** It copies confidently labelled images into training folders.

This project models each of these as it is written, one Dafny module per source component:

- Code that updates state in place becomes classes with `modifies` clauses and loops with invariants.
  This covers the job registries, the archive loop, the job record, the theme service and the
  detection and segment-walking loops.
- Expression-shaped code becomes functions.
  This covers the lookups, the derivations, the endpoint decisions and the camera table.
- Every method is proved against a specification function.
- Lemmas prove what the source promises about those functions.

I/O is passed in as parameters:

- file existence: `fileExists`;
- file contents: `content`;
- directory listings: `getFiles` and `allFiles`;
- `Guid.NewGuid` draws: `newGuid`;
- the exceptions thrown while copying: `fault`;
- a concurrent cancel: `cancelSeen`;
- the Unix-seconds-to-calendar conversion: `civil`;
- the operator's Y/N answer: `confirm`;
- the outcome of `shutil.copy2`: `copySucceeds`.

Modules:

- **Shared modules:**
  - `Wrappers` (Option/Result);
  - `Text` (case folding, Split, Replace, lstrip, integer parsing and printing);
  - `Paths` (.NET `Path` and Python `os.path`);
  - `Calendar` (DateTime fields, the `MMM`/`dd`/`hh.mmtt` formats, `FromUnixTimeSeconds`);
  - `Seqs` (Where, FirstOrDefault, a stable OrderBy, Skip/Take, 32-bit wrap-around);
  - `Records` (the record types and the status enum);
  - `Http` (the handler results);
  - `Mime`;
  - `Jpeg` (the marker words and the byte swap).
- **The current API:**
  - `ApiModels` (the archive job record);
  - `ApiServices` (the job manager and the archive loop);
  - `Endpoints`.
- **The older API:** `LegacyServices` and `LegacyEndpoints`.
- **The tools and programs:**
  - `MoveInvalidFiles` and `ParseJpegHeaders`;
  - `InitializeDatabase`, `ExtractImagePaths` and `LegacyExtract` (root `Program.cs`), with the
    shared `Ingest` (the lazy Select/Where/ToList and the directory walk);
  - `CameraPositionMap`;
  - `CopyConfidentImages`.
- **The frontend:** `FrontendModels` and `FrontendServices`.

Where the code and its intent differ, the model follows the code:

- **Cancel is unconditional.** It resets even a `Completed` job to `Canceled`.
- **AddError always forces `Failed`.** A canceled job whose copy threw therefore ends `Failed`.
- **Missing files are silent.** A missing file adds neither an entry nor an error.
- **The older manager always completes.** It overwrites the run's status with `Completed`.
- **The older manager's entry names have two dots.** They end in `" hh.mmtt." + ".jpg"`.
- **The older request handler never returns BadRequest.** It dereferences the body in a log line
  before its null check, so a missing body is a 500.
- **ExtractImagePaths throws on an empty list.** It reads `images[0]` of an empty list, so it throws
  instead of reporting that there are no images.
- **Current cancel of an unknown id is a 500.** The current `ArchiveRequest.Id` is a non-nullable
  Guid, so cancelling an unknown id throws `KeyNotFoundException`, which no handler catches.

The current API's archive record, `src/api/Models/ArchiveRequest.cs`, lacks fields that
`src/api/Services/ArchiveManager.cs` reads and writes. The missing fields are:

- `StartDateTime`, `EndDateTime`, `SiteName`, `SiteNumber` and `CameraPositionNumber`;
- `TotalImages` and `ProcessedImages`;
- `IncrementProcessedImages`.

`ApiModels.ArchiveRequest` has these fields, following `src/frontend/Models/ArchiveRequest.cs:5-13`,
and keeps the defaults and `AddError` of the API file.

## Model

| member | source | states |
|---|---|---|
| ApiModels.ArchiveRequest.constructor | src/api/Models/ArchiveRequest.cs:5-11 | a new request has status Unknown, an empty message list, no archive path and no progress |
| ApiModels.ArchiveRequest.AddError | src/api/Models/ArchiveRequest.cs:13-17 | exactly one message is appended after the existing ones, the status becomes Failed whatever it was, nothing else changes |
| ApiModels.ArchiveRequest.IncrementProcessedImages | src/api/Services/ArchiveManager.cs:105 | the processed count rises by one and nothing else changes |
| ApiModels.AddErrors | src/api/Models/ArchiveRequest.cs:13-17 | after k calls the list has grown by exactly the k messages in order, and the status is Failed if k > 0 and unchanged otherwise |
| ApiServices.ArchiveManager.constructor | src/api/Services/ArchiveManager.cs:12 | the job registry of the one manager the endpoints share starts empty (the static dictionary at start-up) |
| ApiServices.ArchiveManager.RegisterJob | src/api/Services/ArchiveManager.cs:14-21 | the id drawn is the first fresh candidate; every earlier candidate was a taken key; the job is stored under it, every older entry is kept, and only the request's id changes |
| ApiServices.ArchiveManager.GetJob | src/api/Services/ArchiveManager.cs:45-50 | the registered job for a known id, KeyNotFoundException exactly for an unknown one |
| ApiServices.ArchiveManager.CancelArchiveRequest | src/api/Services/ArchiveManager.cs:34-43 | the lookup's result; a registered job becomes Canceled whatever its status (Completed too), nothing else changes |
| ApiServices.ArchiveManager.ProcessArchiveRequest | src/api/Services/ArchiveManager.cs:23-32 | the request is registered under a fresh id and returned, and its final state and zip entries are those of a full run |
| ApiServices.FirstCancel | src/api/Services/ArchiveManager.cs:98-103 | the first status read that sees a cancel, or one past the last read; no earlier read sees one |
| ApiServices.FirstCancelIs | src/api/Services/ArchiveManager.cs:98-103 | a read with no cancel before it that sees one, or the end, is that first read |
| ApiServices.CreateArchiveAsync | src/api/Services/ArchiveManager.cs:52-178 | the request's whole new state and the zip entries equal the run specification: Processing, then the total and `archives/{Id}.zip`, the loop, the errors, and Completed only if still Processing |
| ApiServices.RunSpec | src/api/Services/ArchiveManager.cs:52-178 | a loop that stops at the first status read seeing a cancel (or after the last record) gives the run specification: status, total, processed count, path, messages and entries |
| ApiServices.ArchiveRecords | src/api/Services/ArchiveManager.cs:96-152 | the loop reaches records until the first read that sees Canceled; the processed count rises by exactly the records reached; entries and errors are those of the records reached |
| ApiServices.CopyRecord | src/api/Services/ArchiveManager.cs:121-151 | one record extends the entries and errors as the specification does: an entry if the file exists, and an error if its copy throws |
| ApiServices.EntriesAreExistingFiles | src/api/Services/ArchiveManager.cs:127-131 | every zip entry is the entry name of a reached record whose file exists |
| ApiServices.ErrorsAtMostEntries | src/api/Services/ArchiveManager.cs:125-151 | errors are at most entries, and entries at most records |
| ApiServices.CleanRecordsAllArchived | src/api/Services/ArchiveManager.cs:121-146 | when every file exists and no copy throws, there is one entry per record in order and no error |
| ApiServices.MissingFilesAddNothing | src/api/Services/ArchiveManager.cs:143-146 | records whose files are all missing add neither entries nor errors |
| ApiServices.RunOutcome | src/api/Services/ArchiveManager.cs:58-176 | processed ≤ total = number of matched records; Completed iff no read saw a cancel and no error was added; Failed iff an error was added; errors added ≤ entries |
| ApiServices.SelectedRecordsMatch | src/api/Services/ArchiveManager.cs:64-73 | a record is selected iff it is in the table, lies in the window, and its site name, site number and camera position equal the request's |
| ApiServices.EntryInDateFolder | src/api/Services/ArchiveManager.cs:121-131 | the entry lies in the folder `year/MMM/dd/`, its file name is `dd_MMM_year_hh.mmtt` + extension, and it ends with the record's extension |
| ApiServices.FileNameOfAppend | src/api/Services/ArchiveManager.cs:131 | a separator-free name placed after a folder path is that path's file name |
| ApiServices.NoSeparatorsInEntryFileName | src/api/Services/ArchiveManager.cs:131 | the day, month, year, time and extension parts hold no path separator |
| LegacyServices.LegacyArchiveRequest.constructor | Services/ArchiveManager.cs:14-23 | a new request has the empty job id, the given window, status Unknown and no errors |
| LegacyServices.LegacyArchiveRequest.AddError | Services/ArchiveManager.cs:34 | one message is appended and nothing else changes |
| LegacyServices.LegacyArchiveManager.constructor | Services/ArchiveManager.cs:12 | the job registry of the one manager the endpoints share starts empty (the static dictionary at start-up) |
| LegacyServices.LegacyArchiveManager.StartArchive | Services/ArchiveManager.cs:14-39 | the returned id is a drawn candidate not previously present; the request is stored under it, other entries are unchanged, JobId is that key, and the run ends in the start specification's state |
| LegacyServices.LegacyArchiveManager.GetJob | Services/ArchiveManager.cs:41-46 | the registered job for a known id, KeyNotFoundException exactly for an unknown one |
| LegacyServices.LegacyArchiveManager.GetFilePath | Services/ArchiveManager.cs:48-67 | the checks come in this order: an unknown id gives KeyNotFound; a job that is not Completed gives InvalidOperation; a Completed job with the file missing gives FileNotFound; otherwise the result is `Archives/{jobId}.zip` |
| LegacyServices.LegacyArchiveManager.ProcessArchiveRequest | Services/ArchiveManager.cs:69-149 | the job's new state and entries are those of the run specification, ending Completed unconditionally; an escaping exception is passed on |
| LegacyServices.ArchiveImages | Services/ArchiveManager.cs:95-139 | entries and errors equal the specification over the window's records |
| LegacyServices.SelectedInWindow | Services/ArchiveManager.cs:81-83 | a record is selected iff it is in the table and StartDate ≤ DateTime ≤ EndDate |
| LegacyServices.LegacyEntriesAreExistingFiles | Services/ArchiveManager.cs:103-107 | every entry is the entry name of a record whose file exists |
| LegacyServices.LegacyErrorsAtMostEntries | Services/ArchiveManager.cs:101-128 | errors are at most entries, and entries at most records |
| LegacyServices.StartOutcome | Services/ArchiveManager.cs:25-36 | the job id is set; Completed iff nothing escaped the run; Failed iff something did, with exactly one added "Processing failed: " message and no entries; earlier errors are kept |
| LegacyServices.LegacyEntryDoubleDot | Services/ArchiveManager.cs:107 | an entry ends with "." followed by an extension that itself begins with "." |
| Endpoints.RequestArchive | src/api/EndpointsMap.cs:142-165 | a missing body gives BadRequest with the registry unchanged; otherwise the job is registered and run, and the answer is Accepted with `/api/archive/request/{Id}` |
| Endpoints.StatusResponse | src/api/EndpointsMap.cs:167-182 | Ok with the job iff the id is registered, otherwise Problem carrying the lookup's message |
| Endpoints.DownloadOutcomes | src/api/EndpointsMap.cs:184-209 | an unknown id gives a 500; a job with no file on disk gives NotFound whatever its status; a file whose job is not Completed gives Conflict; a Completed job with its file is streamed as application/zip |
| Endpoints.CancelEndpoint | src/api/EndpointsMap.cs:336-353 | a missing body gives NotFound; an unregistered id gives an uncaught 500; otherwise the job is set Canceled and returned |
| Endpoints.NarrowBy | src/api/EndpointsMap.cs:237-288 | each conditional Where takes the rows that pass the first k criteria to those that pass k + 1 |
| Endpoints.PaginatedImages | src/api/EndpointsMap.cs:233-298 | when OFFSET/FETCH accepts the page (offset ≥ 0, pageSize ≥ 1), the handler's chain of conditional Wheres, then OrderBy, Skip and Take, equals the query specification; otherwise the uncaught SQL error is a 500 |
| Endpoints.PageMatchesQuery | src/api/EndpointsMap.cs:237-298 | every row of the page is in the table and meets every supplied criterion (and ≥ 80 for an absent percent); the page is ordered by DateTime; its length is ≤ TotalCount and ≤ pageSize |
| Endpoints.ByDateTimeIsTotal | src/api/EndpointsMap.cs:293 | ordering by DateTime is a total preorder |
| Endpoints.AdjacentPages | src/api/EndpointsMap.cs:292-296 | for pageSize ≥ 1 without overflow, both pages i and i + 1 are served, and together they are the double-size run of sorted matches starting at i·pageSize |
| Endpoints.ImageResponse | src/api/EndpointsMap.cs:304-330 | NotFound iff no record has the id; a file is served only for a record with that id whose file exists, with the MIME type of its extension; anything else is a 500 |
| Endpoints.QueryHistory | src/api/EndpointsMap.cs:90-103 | NotFound iff there are no queries; otherwise all of them, as a permutation |
| Endpoints.QueryHistorySorted | src/api/EndpointsMap.cs:94-96 | the history is ordered by Timestamp, newest first |
| LegacyEndpoints.RequestArchive | src/api/Program.cs:91-120 | a missing body gives a bare Problem (never BadRequest); the empty Guid gives Problem("Error creating new archive job."); otherwise the answer is Accepted with the registered job |
| LegacyEndpoints.StatusResponse | src/api/Program.cs:125-138 | Ok with the job iff the id is registered, otherwise Problem carrying the lookup's message |
| LegacyEndpoints.DownloadResponse | src/api/Program.cs:142-157 | the file `{jobId}.zip` iff Completed and present; otherwise Problem carrying the message of whichever GetFilePath check failed |
| LegacyEndpoints.PaginatedResponse | src/api/Program.cs:178-212 | Ok iff there are ≥ 5 fields, the dates and ints parse and OFFSET/FETCH accepts the page, with the page of those fields; a parse failure gives BadRequest; a missing field gives Problem with the index message; a rejected page gives Problem with the SQL error's message |
| LegacyEndpoints.UnparsableStartIsBadRequest | src/api/Program.cs:184-191 | a first field that is not a date gives BadRequest whatever follows |
| LegacyEndpoints.InvalidFilterIsBadRequest | src/api/Program.cs:182-191 | the filter "invalid,filter" gives BadRequest |
| LegacyEndpoints.MissingSiteIsProblem | src/api/Program.cs:193-211 | four valid fields and no fifth give Problem with the IndexOutOfRange message |
| LegacyEndpoints.FilterPageMatches | src/api/Program.cs:194-205 | every row is in the table, in the window and at the site; rows are ordered by Id; the page length is ≤ TotalCount and ≤ pageSize |
| LegacyEndpoints.ByIdIsTotal | src/api/Program.cs:196 | ordering by Id is a total preorder |
| LegacyEndpoints.ImageResponse | src/api/Program.cs:216-244 | NotFound iff no record has the id; a file is served only for that record's existing file, with its MIME type; anything else is a Problem with a message |
| Mime.MimeTypeOfPath | src/api/EndpointsMap.cs:316-323 | the result is one of the four MIME types |
| Mime.MimeTypeCases | src/api/Program.cs:228-235 | image/jpeg iff the extension is .jpg/.jpeg ignoring case; png, gif likewise; octet-stream iff it is none of them |
| Jpeg.ConvertToBigEndian16 | src/MoveInvalidFiles/Program.cs:271-280 | the high and low bytes are swapped |
| Jpeg.SwapInvolution | src/ParseJpegHeaders/Program.cs:107-116 | swapping twice gives the input back |
| Jpeg.ReadUInt16 | src/MoveInvalidFiles/Program.cs:157 | BinaryReader.ReadUInt16 is little-endian: the first byte is the low byte |
| Jpeg.ReadBigEndian16 | src/MoveInvalidFiles/Program.cs:157-168 | the swapped read is the big-endian value of the two bytes |
| Jpeg.ReadBigEndianIs | src/ParseJpegHeaders/Program.cs:34-46 | the big-endian read equals a marker iff the two bytes are its high and low bytes |
| Jpeg.MarkerBytes | src/MoveInvalidFiles/Program.cs:159-170 | SOI, EOI and APP0 are FF D8, FF D9 and FF E0 |
| MoveInvalidFiles.VerdictOf | src/MoveInvalidFiles/Program.cs:128-183 | a foreign extension is Invalid without a read; the pass throws iff an accepted file cannot be read; otherwise the path is Invalid iff the marker test fails |
| MoveInvalidFiles.CheckFile | src/MoveInvalidFiles/Program.cs:128-183 | the loop body's verdict (extension, length, last word, first word) equals the specification |
| MoveInvalidFiles.DetectInvalidFiles | src/MoveInvalidFiles/Program.cs:122-187 | the collected list and the failing path equal the specification; the returned count equals the number of paths collected |
| MoveInvalidFiles.DetectStops | src/MoveInvalidFiles/Program.cs:179-183 | once a read throws, the later paths change nothing |
| MoveInvalidFiles.DetectIsFilter | src/MoveInvalidFiles/Program.cs:126-175 | when no read throws, the collected paths are exactly the Invalid ones, each once, in input order |
| MoveInvalidFiles.DetectFailure | src/MoveInvalidFiles/Program.cs:179-183 | the first throwing path ends the pass, holding the invalid paths before it |
| MoveInvalidFiles.DetectReadable | src/MoveInvalidFiles/Program.cs:122-187 | with every file readable, the collected paths are exactly those failing the extension or marker test |
| MoveInvalidFiles.ValidIff | src/MoveInvalidFiles/Program.cs:128-175 | a path is valid iff its extension is exactly .jpg or .jpeg, it has ≥ 2 bytes, it starts with FF D8 and it ends with FF D9 |
| ParseJpegHeaders.WalkSegments | src/ParseJpegHeaders/Program.cs:52-92 | the segment loop from offset 2 ends as the walk specification says |
| ParseJpegHeaders.App0FoundAtSegment | src/ParseJpegHeaders/Program.cs:64-86 | a found APP0 is the first APP0 on the segment chain from the start (every segment skipped before it is a well-formed non-APP0 one), has length ≥ 31 inside the file, and its payload bytes 26 and 28 are reported |
| ParseJpegHeaders.WalkFollowsChain | src/ParseJpegHeaders/Program.cs:54-92 | the walk from the start ends as the walk from any segment the chain of skipped segments reaches |
| ParseJpegHeaders.ShortApp0Throws | src/ParseJpegHeaders/Program.cs:79-104 | an APP0 payload under 29 bytes makes the indexing throw IndexOutOfRange |
| ParseJpegHeaders.SkipAdvances | src/ParseJpegHeaders/Program.cs:87-91 | a non-APP0 segment moves the position to length - 2 past its length field, strictly forward, and the walk continues there |
| ParseJpegHeaders.ParseFile | src/ParseJpegHeaders/Program.cs:19-100 | one file's outcome: skipped if unusable; else too small, bad EOI, bad SOI, or the walk |
| ParseJpegHeaders.ParseAll | src/ParseJpegHeaders/Program.cs:17-105 | the outcomes of the files up to the first one that ends the run equal the scan specification |
| ParseJpegHeaders.ScanStops | src/ParseJpegHeaders/Program.cs:26-104 | a file that ends the run hides every later file |
| ParseJpegHeaders.ScanShape | src/ParseJpegHeaders/Program.cs:17-105 | each outcome is its file's; every outcome but the last continues; if the last continues, all files were scanned |
| ParseJpegHeaders.UnusablePathSkipped | src/ParseJpegHeaders/Program.cs:21-99 | a path that is not fully qualified or does not exist is skipped and the run continues |
| ParseJpegHeaders.BadMarkersEndRun | src/ParseJpegHeaders/Program.cs:26-50 | a usable file under 2 bytes, or without FF D8 … FF D9, ends the whole run |
| ParseJpegHeaders.GetImagePaths | src/ParseJpegHeaders/Program.cs:118-137 | the list is each extension's search results appended in turn |
| ParseJpegHeaders.ImagePathsOrder | src/ParseJpegHeaders/Program.cs:122-128 | all .jpg results come before all .jpeg results |
| Ingest.CollectThrows | src/InitializeDatabase/Program.cs:91-129 | the lazy enumeration throws iff some path's derivation throws, and then with the first such exception |
| Ingest.CollectKeeps | src/InitializeDatabase/Program.cs:127-129 | without a throw, the records are exactly those of the kept paths, one each, in input order |
| Ingest.CollectNeverSkips | Program.cs:107-139 | a derivation that never skips gives one record per path, in order |
| Ingest.CollectFirstThrow | Program.cs:62-67 | the first path whose derivation throws decides the exception |
| Ingest.KeptAsCollect | Program.cs:107-141 | a list whose every path is kept enumerates to exactly its records |
| Ingest.KeptAsThenThrow | Program.cs:62-85 | a list kept up to a throwing path enumerates to that path's exception |
| Ingest.GetImagePaths | src/ExtractImagePaths/Program.cs:85-103 | the nested loops append, directory by directory, each extension's files |
| Ingest.GatheredMembership | Program.cs:31-42 | a path is collected iff a listed subdirectory holds it for some extension, so files directly in the root never are |
| InitializeDatabase.GetImageFilePaths | src/InitializeDatabase/Program.cs:51-65 | the files kept are exactly those passing the lower-cased extension test |
| InitializeDatabase.ImageFileIff | src/InitializeDatabase/Program.cs:53-58 | a file is kept iff its extension is .jpg or .jpeg ignoring case |
| InitializeDatabase.SiteNameOf | src/InitializeDatabase/Program.cs:69-109 | null iff no site name occurs ignoring case; otherwise the first one in list order that does |
| InitializeDatabase.SiteNumberCases | src/InitializeDatabase/Program.cs:78-113 | 1 when no site_k token occurs; otherwise the k of the first token in list order that occurs |
| InitializeDatabase.DeriveSkips | src/InitializeDatabase/Program.cs:95-105 | a name of ≤ 2 characters, or one whose prefix before its last two characters is not a long, is skipped |
| InitializeDatabase.DeriveKeeps | src/InitializeDatabase/Program.cs:101-124 | a kept record holds the path, the Unix time in the name and its date, and the site name and number from the path |
| InitializeDatabase.DeriveThrows | src/InitializeDatabase/Program.cs:107 | only a Unix time outside DateTime's range throws, with ArgumentOutOfRange |
| InitializeDatabase.InsertionOutcome | src/InitializeDatabase/Program.cs:91-141 | throws iff a derivation throws; otherwise inserts exactly the valid records in order, or nothing iff none is valid |
| ExtractImagePaths.FindImagePaths | src/ExtractImagePaths/Program.cs:85-103 | all subdirectories' files, per directory, in extension-list order |
| ExtractImagePaths.FirstSite | src/ExtractImagePaths/Program.cs:107-144 | none iff no site name is contained case-sensitively; otherwise the first one in list order |
| ExtractImagePaths.CameraOf | src/ExtractImagePaths/Program.cs:146 | 2 iff the path contains "Camera2", else 1 |
| ExtractImagePaths.Extract | src/ExtractImagePaths/Program.cs:122-160 | short or non-numeric names are skipped; throws only on an out-of-range time; a record has the file name, the path, the time and its date, the site or "", and the camera |
| ExtractImagePaths.InsertionOutcome | src/ExtractImagePaths/Program.cs:161-212 | no valid path makes the run throw; an insertion is confirmed and holds exactly the valid records in order; a decline had valid records |
| LegacyExtract.LongParseAgrees | Program.cs:66-111 | long.Parse succeeds exactly where long.TryParse does, with the same value, and otherwise throws Format or Overflow |
| LegacyExtract.ParseUnixTimeCases | Program.cs:66-111 | a name under two characters throws ArgumentOutOfRange; otherwise the result parses iff the prefix before the last two characters is a long |
| LegacyExtract.DeriveOutcome | Program.cs:109-138 | a path is never skipped; it gives a record iff its time parses and lies in range, with the file name, the path, the time, the first site or null, and the camera |
| LegacyExtract.SiteOf | Program.cs:113-123 | the foreach with break chooses the first site name the path contains |
| LegacyExtract.ListPath | Program.cs:64-67 | the listing step throws exactly when the derivation throws, with its exception |
| LegacyExtract.ListPaths | Program.cs:62-85 | the listing loop throws with the enumeration's exception, or every path is kept |
| LegacyExtract.BuildRecord | Program.cs:109-138 | the Select lambda builds the derived record |
| LegacyExtract.BuildRecords | Program.cs:107-139 | the Select builds exactly the enumeration's records |
| LegacyExtract.InsertImagePathsIntoDatabase | Program.cs:47-143 | the listing, the prompt and the insertion equal the specification |
| LegacyExtract.OneRecordPerPath | Program.cs:107-141 | an insertion has exactly one record per path, in order, each with its path, file name, site and camera |
| LegacyExtract.ShortNameAborts | Program.cs:66 | a name under two characters aborts the run whatever the operator answers |
| CameraPositionMap.SitesShape | src/InitializeDatabase/CameraPositionMap.cs:16-381 | every site carries its key as its name; sub-sites are named site_k; positions are numbered from 1 and begin with the eight compass points |
| CameraPositionMap.SiteNamesDistinct | src/InitializeDatabase/CameraPositionMap.cs:16-18 | the keys differ pairwise even ignoring case |
| CameraPositionMap.GetSiteNames | src/InitializeDatabase/CameraPositionMap.cs:383-386 | the result is sorted and is a permutation of the keys |
| CameraPositionMap.SiteNamesInOrder | src/InitializeDatabase/CameraPositionMap.cs:383-386 | the names are Eldorado, Rockland, Sheep, Snake, Spring |
| CameraPositionMap.GetSubSiteNumbers | src/InitializeDatabase/CameraPositionMap.cs:388-393 | empty for an unknown site; otherwise the sub-site keys, sorted and as a permutation |
| CameraPositionMap.SubSiteNumbersAreKeys | src/InitializeDatabase/CameraPositionMap.cs:388-393 | for a known site, the result is the key list itself, which is already ascending |
| CameraPositionMap.SubSiteNumbersOfSites | src/InitializeDatabase/CameraPositionMap.cs:20-353 | Sheep [1,2,3,4], Rockland [1], Spring [0..4], Snake [1,2,3], Eldorado [2,3] |
| CameraPositionMap.KnownSites | src/InitializeDatabase/CameraPositionMap.cs:383-393 | a lookup succeeds iff some site name equals the argument ignoring case |
| CameraPositionMap.FindOwnKey | src/InitializeDatabase/CameraPositionMap.cs:16 | in a dictionary whose keys differ ignoring case, TryGetValue of each key finds that key's own entry |
| CameraPositionMap.SiteLookupIgnoresCase | src/InitializeDatabase/CameraPositionMap.cs:16 | names equal ignoring case give the same site, sub-site numbers and sub-site names |
| CameraPositionMap.SubSiteIffNumber | src/InitializeDatabase/CameraPositionMap.cs:430-436 | GetSubSite(s, n) is non-null iff n is in GetSubSiteNumbers(s) |
| CameraPositionMap.GetCameraPositionName | src/InitializeDatabase/CameraPositionMap.cs:411-418 | a null site name throws ArgumentNull, and only that |
| CameraPositionMap.PositionNameIff | src/InitializeDatabase/CameraPositionMap.cs:411-418 | a name is returned iff the site, sub-site and position exist, and it is that position's name |
| CameraPositionMap.PositionNameNull | src/InitializeDatabase/CameraPositionMap.cs:411-418 | null iff the number is not among the position numbers |
| CameraPositionMap.PositionNumbersAreSortedKeys | src/InitializeDatabase/CameraPositionMap.cs:395-409 | the position numbers are the sorted keys of the positions; both are empty when a key is missing |
| CameraPositionMap.PositionNumbersCountFromOne | src/InitializeDatabase/CameraPositionMap.cs:403-409 | the position numbers are 1, 2, … one per position |
| CameraPositionMap.CompassPositions | src/InitializeDatabase/CameraPositionMap.cs:26-33 | positions 1-8 are North … North West in every sub-site |
| CameraPositionMap.SubSiteNamesFollowNumbers | src/InitializeDatabase/CameraPositionMap.cs:420-428 | the sub-site names are "site_" + each number, in the order of the numbers |
| CameraPositionMap.AllSiteNumbersAgree | src/InitializeDatabase/CameraPositionMap.cs:438-445 | the keys are GetSiteNames in order, and each maps to the list GetSubSiteNumbers gives |
| CameraPositionMap.NumbersBySortedKey | src/InitializeDatabase/CameraPositionMap.cs:440-443 | for table entries, ordering by key then mapping to sorted numbers gives the sorted keys, each with GetSubSiteNumbers of itself |
| CameraPositionMap.StringLeTotalPreorder | src/InitializeDatabase/CameraPositionMap.cs:385 | ordinal string comparison is a total preorder |
| CopyConfidentImages.FirstMatch | src/predictor/Model/copy_confident_images.py:48-63 | none iff no category's labels equal the row's; otherwise the first category that matches |
| CopyConfidentImages.AtMostOneCategory | src/predictor/Model/copy_confident_images.py:8-13 | a row's labels match at most one category |
| CopyConfidentImages.StepCounts | src/predictor/Model/copy_confident_images.py:47-63 | a row changes only its matched category's count, by +1 exactly when it is confident, under 500, the source exists and the copy succeeds; that pair is appended to the copies |
| CopyConfidentImages.CountsCapped | src/predictor/Model/copy_confident_images.py:52-60 | no count exceeds 500 |
| CopyConfidentImages.CountsAreCopies | src/predictor/Model/copy_confident_images.py:29-60 | the counts add up to the number of copies made |
| CopyConfidentImages.CopiesAreConfirmed | src/predictor/Model/copy_confident_images.py:53-60 | every copy had an existing source, succeeded, and went into a category folder under the source's basename |
| CopyConfidentImages.SourceOfAppPath | src/predictor/Model/copy_confident_images.py:53 | "/app/rest" maps to base_path + "/" + rest |
| CopyConfidentImages.AppInsideNameIsRemoved | src/predictor/Model/copy_confident_images.py:53 | replace removes every "/app", so "/app/app…" loses both |
| CopyConfidentImages.DestinationInFolder | src/predictor/Model/copy_confident_images.py:54-55 | the destination is output_base/folder/basename(src) and keeps the source's basename |
| CopyConfidentImages.ProcessRow | src/predictor/Model/copy_confident_images.py:48-63 | the inner loop with its break equals one step of the specification |
| CopyConfidentImages.CopyConfidentImages | src/predictor/Model/copy_confident_images.py:29-63 | the counts and copies equal the specification over the rows, and every count is ≤ 500 |
| FrontendModels.WithError | src/frontend/Models/ArchiveRequest.cs:16-18 | a missing list becomes one holding the message; an existing one keeps its messages and gains the message at the end |
| FrontendModels.WithErrorsAppends | src/frontend/Models/ArchiveRequest.cs:14-20 | after k > 0 calls the list exists and has grown by exactly the k messages; after none it is as it was |
| FrontendModels.ArchiveRequest.constructor | src/frontend/Models/ArchiveRequest.cs:5-13 | every field has its default: the empty Guid, nulls, DateTime.MinValue, status Unknown |
| FrontendModels.ArchiveRequest.AddError | src/frontend/Models/ArchiveRequest.cs:14-20 | the list is created if missing and the message appended, the status becomes Failed, nothing else changes |
| FrontendModels.AddErrors | src/frontend/Models/ArchiveRequest.cs:14-20 | after k > 0 calls the list exists and holds the old messages followed by the k new ones, and the status is Failed |
| FrontendServices.ThemeService.constructor | src/frontend/Services/ThemeService.cs:8-11 | State is true and the theme is custom-theme-light |
| FrontendServices.ThemeService.ToggleTheme | src/frontend/Services/ThemeService.cs:13-17 | State is negated |
| FrontendServices.ThemeService.GetTheme | src/frontend/Services/ThemeService.cs:19-22 | custom-theme-light iff State, custom-theme-dark iff not |
| FrontendServices.ToggleTwice | src/frontend/Services/ThemeService.cs:13-17 | toggling twice restores the state and the theme |
| Calendar.FromUnixTimeSeconds | src/InitializeDatabase/Program.cs:107 | a date iff the seconds lie in DateTime's range, and then the calendar conversion |
| Calendar.Hour12 | src/api/Services/ArchiveManager.cs:131 | the `hh` hour lies in 1..12 |
| Text.TwoDigits | src/api/Services/ArchiveManager.cs:123 | `dd` prints two digits whose value is the number |
| Text.ToLower | src/api/EndpointsMap.cs:316 | same length, each character lower-cased |
| Text.ToLowerIdempotent | src/InitializeDatabase/Program.cs:58 | lower-casing twice equals lower-casing once |
| Text.ContainsIff | src/ExtractImagePaths/Program.cs:144 | Contains holds iff the pattern occurs at some position |
| Text.Split | src/api/Program.cs:182 | at least one piece, and no piece holds the separator |
| Text.JoinSplit | src/api/Program.cs:182 | joining the pieces back with the separator gives the original string |
| Text.SplitFirstPiece | src/api/Program.cs:184 | the first piece is everything before the first separator |
| Text.ReplaceAbsent | src/predictor/Model/copy_confident_images.py:53 | replace changes nothing when the pattern does not occur |
| Text.LStripShape | src/predictor/Model/copy_confident_images.py:53 | lstrip leaves a suffix that does not start with the character, after a run of that character only |
| Text.ParseInteger | src/api/Program.cs:186-187 | a parsed value lies in the type's range |
| Text.ParsePrintRoundTrip | src/InitializeDatabase/Program.cs:101 | parsing a printed in-range number gives it back |
| Text.ParseRejectsNonDigits | src/ExtractImagePaths/Program.cs:136 | a non-digit after the first position makes parsing fail |
| Paths.FileNameShape | src/ExtractImagePaths/Program.cs:124 | the file name is a separator-free suffix of the path, preceded by a separator unless it is the whole path |
| Paths.NameExtensionShape | src/MoveInvalidFiles/Program.cs:128 | an extension is empty, or "." plus at least one non-dot character, ending the name |
| Paths.NameStemShape | src/InitializeDatabase/Program.cs:93 | the name without extension is a prefix of the name |
| Paths.StemPlusExtension | src/ExtractImagePaths/Program.cs:126 | stem plus extension is the name, unless the name ends with a bare "." |
| Paths.PyBasenameShape | src/predictor/Model/copy_confident_images.py:55 | basename is a suffix with no '/', preceded by '/' unless it is the whole path |
| Paths.LastDotShape | src/ExtractImagePaths/Program.cs:126 | the position found holds the last '.' of the name |
| Seqs.Filter | src/api/EndpointsMap.cs:237-288 | Where keeps only passing elements, drawn from the input |
| Seqs.FilterMembership | src/api/Services/ArchiveManager.cs:64-73 | an element is kept iff it is in the input and passes |
| Seqs.FindFirst | src/InitializeDatabase/Program.cs:109-111 | FirstOrDefault: none iff nothing passes; otherwise the first element that passes |
| Seqs.FindFirstAt | src/InitializeDatabase/Program.cs:109-111 | when the i-th element is the first that passes, FirstOrDefault returns exactly it |
| Seqs.SortBy | src/api/EndpointsMap.cs:293 | OrderBy returns a permutation of the input |
| Seqs.SortBySorted | src/api/EndpointsMap.cs:293 | under a total preorder the result is sorted |
| Seqs.PageIsSlice | src/api/EndpointsMap.cs:294-295 | Enumerable Skip then Take is a clamped slice, at most pageSize long, and empty for pageSize ≤ 0; the handlers reach it only for pages that OFFSET/FETCH accepts (offset ≥ 0, pageSize ≥ 1) |
| Seqs.PageOfSorted | src/api/EndpointsMap.cs:292-296 | a page of a sorted list is sorted and drawn from it |
| Seqs.PagesAdjacent | src/api/EndpointsMap.cs:294-295 | two consecutive pages make one page of double size |
| Seqs.WrapInt32 | src/api/EndpointsMap.cs:294 | `pageIndex * pageSize` wraps to a 32-bit int: in range, congruent modulo 2^32, unchanged when in range |

## Left out

- **Concurrency.** `Parallel.ForEach` is modelled as a loop over the records in order. The model
  leaves out the `lock`, the `ConcurrentBag` and `MaxDegreeOfParallelism`. Entries and errors
  come in record order, which the source leaves unspecified.
- **Fire-and-forget runs.** The un-awaited `CreateArchiveAsync` and the `Task.Run` of the older
  manager run to completion inside the call that starts them. A concurrent cancel is the
  `cancelSeen` set of status reads.
- **The ETA computation.** The progress ratio, elapsed time and remaining time
  (src/api/Services/ArchiveManager.cs:107-119) are floating-point and clock values.
- **I/O.** The file system, zip streams, database, HTTP binding and JSON serialisation are left out.
  - The archive is the list of its entry names.
  - `File.Exists` and file opening are predicates and fault messages.
  - Queries are input sequences.
  - `Directory.GetFiles`/`EnumerateFiles` results are parameters, so their pattern-matching quirks
    are not modelled.
- **Console output and prompts.**
  - Logging and `print` are left out.
  - The Y/N loops are the `confirm` parameter.
  - The MoveInvalidFiles menu, its paging and the file moves (src/MoveInvalidFiles/Program.cs:29-120, 189-264) are left out.
  - `os.makedirs` is left out.
- **Culture-dependent formatting.**
  - `MMM` uses the invariant English month abbreviations.
  - `hh.mmtt` is a 12-hour clock with AM/PM.
  - `OrderBy(name => name)` is modelled as ordinal comparison.
  - Case-insensitive comparison folds ASCII letters only.
- **The calendar conversion.** The conversion of Unix seconds to calendar fields is the parameter
  `civil`. Only the range check of `FromUnixTimeSeconds` is modelled.
- **Number parsing.**
  - `long.TryParse`/`int.TryParse`/`long.Parse` accept an optional sign and ASCII digits in range.
    Leading or trailing whitespace and culture-specific forms are not accepted.
  - `DateTime.TryParse` is the parameter `parseDate`.
- **Dictionaries.** They are lists of entries in insertion order, which is the order in which their
  enumeration yields them. `ToDictionary`'s exception on a duplicate key is not modelled; the keys
  are proved distinct.
- **Guid.NewGuid.** Its draws are the `newGuid` sequence. RegisterJob and StartArchive require that
  a fresh value is among them.
- **The older request class.** The older API's `ArchiveRequest` class is not part of this model.
  Its constructor and `AddError` are modelled from their use in Services/ArchiveManager.cs, with
  `AddError` as an append only.
- **copy_confident_images.py data.**
  - The SQL query is an input sequence of rows.
  - Percentages are exact reals and never NULL. A NULL `FilePath` or percentage, which raises in
    Python, is not modelled.
  - The `categories` and `thresholds` dictionaries are merged into one ordered list.
  - The `tqdm` progress bar is left out.
  - The report loop is left out.
- Endpoints.AdjacentPages: the model's OrderBy is one fixed stable order, so rows that tie on
  DateTime come back in the same order on both pages. SQL Server's ORDER BY leaves ties unordered,
  and two separate queries may order them differently.
- Records.OffsetFetchError: when both the offset is negative and the row count is below 1, the
  offset's error is reported. Which of the two SQL Server reports first is not modelled.
- ApiServices.ArchiveManager.constructor: the source's `Jobs` dictionary is static, shared by every
  instance. The model makes it a field of the one manager that every endpoint receives, so a freshly
  constructed instance starts empty instead of seeing the shared jobs.
- LegacyServices.LegacyArchiveManager.constructor: the same holds for the older manager's static
  `Jobs` dictionary.
- **Path separators.** `GetFileName` and `GetExtension` split on both '/' and '\\' (the Windows
  rule), while `Combine` joins with '/'. On a Linux host '\\' is an ordinary character; the model
  does not follow the host's rule.
- **The StateChanged event.** `ThemeService.StateChanged` and its subscribers are left out.
- **Other parts of the repository.** The ML training and inference code, the frontend pages and
  services, the upload service and the EF Core migrations are outside the modelled core.
