# A model of cincan-command

`cincan` runs a command-line tool in a container: it finds the host files the command line needs,
packs them, streams the terminal to and from the container, brings the results back, and logs which
files each command read and wrote so that a result can be traced. This project models the logic
between the library calls and proves what it does, in Dafny 4.11. `dafny verify dfyconfig.toml`
checks everything.

| file | part of the program |
|---|---|
| `Sequences.dfy`, `Text.dfy`, `Sorting.dfy`, `Paths.dfy`, `Bytes.dfy`, `HostFiles.dfy` | the parts of Python's library the program rests on: filtering, `split`/`join`/`find`, stable sorting, `pathlib`, incremental digests and short reads, the host's files |
| `CommandLogs.dfy`, `Inspector.dfy`, `InspectorBounds.dfy`, `Provenance.dfy` | the command log and the search through it |
| `Matching.dfy`, `OutputFilters.dfy` | wildcard patterns and the choice of what to download |
| `AttachStream.dfy`, `ContainerIo.dfy` | the framed container stream and the terminal loop |
| `Downloads.dfy`, `Reconciliation.dfy`, `Scratch.dfy` | the download passes and the state they leave on the host |
| `Uploads.dfy`, `UploadTar.dfy` | finding and packing the uploads |
| `RoundTrip.dfy` | a whole use of the tool: upload, command, download |

## How it is modelled

* Objects whose methods change them are classes (`CommandInspector` with a shared `CoveredSet`,
  `ToolStream`, `FileResolver`, `TarTool`, `WorkSet`, `Host`, `TarWriter`); their methods are proved
  against functions or set descriptions of the old state, and the main results are lemmas about those.
* Paths are strings as `pathlib` renders them. The host is a finite map from paths to files and
  directories; the container is what it has at a path and the archive it gives of a path.
* Digests are a parameter; where agreement is decided by digest, it is required to be injective.
* Every short read, partial send, choice of ready streams and order of a Python set is an arbitrary
  choice, so that the contracts hold for all of them. An exception of a host operation is a result
  (`ok` false) that ends the pass.

## What was found

* The search through the log shows everything reachable from a depth of the number `n` of reachable
  files less one on, and for no smaller depth in general (`ExactDepthBound`). Depth is not distance: a
  file within that many commands may be missing, because another path met its parent first with less
  depth left. That everything within the depth is shown holds exactly for depths up to 2 and from
  `n - 1` on (`ExactDistanceBound`, `DetourIsMissed`).
* A pattern that does not end in `*` accepts a text only if no proper prefix of it matches as a glob:
  `*a` rejects `aba` (`AcceptsExactly`, `LeftmostIsIncomplete`).
* Of include filters in a row only every second one is applied (`EverySecondOfARun`); all are exactly
  if no two are neighbours (`NoneLeftExactly`).
* The stream reader takes an empty frame for the end of the stream (`DemultiplexInvertsEncode`), and seven bytes, not the four of
  the documented format, for the length; the two agree exactly on headers with three zero bytes before
  those four (`DocumentedExactly`).
* A fetch changes nothing but its path and the way to it, unless there was a file to replace and
  something called like it with `_TEMP` at its end: that is lost (`ScratchFileIsLost`). Nothing else ever
  is (`OnlyScratchNamesAreLost`); a candidate of that name comes home only if it is fetched, and after
  the other (`OrderDecides`).
* A download raises no exception exactly if nothing on the host is in the way of what it handles;
  otherwise it stops there, and what was handled before is as in the container (`OkExactly`). It may
  leave a scratch file (`OneFileIsBlocked`).
* A relative upload and the same path from the root get one archive name (`ArchiveNamesCollide`).
* A listed path with `..` can hide from the tar the directory an output file needs: when by its text
  it leads through that directory and no name in the archive does (`NearestIsMemberExactly`); for
  example the output directory `d/../n`, or the argument `d/..`, hides `d` for the argument `d/file`
  (`DotsHideADirectory`, `UpHidesADirectory`).

## Model

| member | source | states |
|---|---|---|
| CommandLogs.ListEntriesOrders | cincan/command_log.py:149-150 | listing the log permutes it, orders it by time, latest first if reversed, and keeps simultaneous entries in their order in both directions |
| Bytes.ReadWithHash | cincan/command_log.py:25-34 | however the reads are split, everything left is copied in order and the digest is that of all of it |
| Inspector.CommandInspector.FanIn | cincan/command_inspector.py:52-69 | the root has the given digest or else that of the host file; unless the depth is used up or the file was covered, below it are exactly the commands that put out that digest, latest first, each with its inputs, hashed on the host if their digest was not logged; called without a set and deep enough, it shows exactly the reachable files; the caller's set gains the key, and a set that was empty stays empty |
| Inspector.CommandInspector.FanOut | cincan/command_inspector.py:71-88 | the same from inputs to outputs |
| Inspector.KeyIsInjective | cincan/command_inspector.py:56 | with digests free of ':' a key tells path and digest apart |
| Inspector.SearchIsFaithful | cincan/command_inspector.py:62-68 | at any depth, a node shows nothing below it or exactly the commands found by its digest, latest first, each with all the files it leads to |
| Inspector.LevelIsDistance | cincan/command_inspector.py:58-67 | a file node at level k is linked to the root by exactly k logged commands, and k is at most the depth |
| Inspector.SearchIsSound | cincan/command_inspector.py:52-88 | at any depth the tree shows only files that chains of logged commands reach |
| Inspector.SearchIsComplete | cincan/command_inspector.py:52-88 | with depth at least the number of reachable files less one the tree shows exactly the reachable files, cycles included |
| Inspector.SearchCost | cincan/command_inspector.py:57-60 | at any depth no key is expanded twice, and command nodes number at most reachable files times logged commands |
| Inspector.FanInAndFanOutAreConverse | cincan/command_inspector.py:62-88 | with nonempty logged digests and enough depth, a digest is in the fan-in tree of another exactly when that one is in the fan-out tree of the first |
| InspectorBounds.ExactDepthBound | cincan/command_inspector.py:58 | a depth is enough for all searches that can reach n files if and only if it is at least n - 1 (or n is 1) |
| InspectorBounds.ExactDistanceBound | cincan/command_inspector.py:58-60 | in all searches that can reach n files every file within `depth` commands is shown, if and only if the depth is at most 2 or at least n - 1 |
| InspectorBounds.DetourIsMissed | cincan/command_inspector.py:58-60 | for every depth from 3 to n - 2, a log with n reachable files in which one `depth` commands away is missing |
| InspectorBounds.SearchShowsNext | cincan/command_inspector.py:57-68 | at any depth and from any covered set, every file newly covered has all its successors shown, and with depth 2 left they are covered |
| Provenance.RunsAreLinked | cincan/command_inspector.py:62-69 | when one run's download is another run's upload, the inputs of the first lie two commands behind the outputs of the second and a deep enough search shows them |
| Provenance.DownloadIsLogged | cincan/tar_tool.py:411 | a handled file not recognised as unmodified is logged with the digest of the container's file |
| Provenance.LoggedExactly | cincan/tar_tool.py:342-411 | the log of a download has exactly the handled candidates that were not recognised as unmodified, files with their digest, directories with none |
| Provenance.UploadIsLogged | cincan/tar_tool.py:113-121 | the log of an upload has exactly the host files packed, under their resolved paths, with the digests of their contents |
| Matching.Match | cincan/file_tool.py:52-78 | matches exactly the texts of the glob of which, unless the pattern ends in a star, no proper prefix is in the glob |
| Matching.AcceptsExactly | cincan/file_tool.py:52-78 | the same as an equivalence between leftmost placement and the glob language, for every pattern and text |
| Matching.LeftmostIsIncomplete | cincan/file_tool.py:67-77 | `*a` rejects `aba`, which the glob accepts |
| Matching.AcceptsBelow | cincan/file_tool.py:52-78 | the pattern `x/*` accepts exactly what begins with `x/` |
| Matching.FilterUploadFiles | cincan/file_tool.py:25-27 | keeps, in order, exactly the files that a filter accepts if it includes, and does not accept if it excludes |
| Matching.FilterDownloadFiles | cincan/file_tool.py:29-50 | the same, where a pattern with a slash in front looks at the whole path and any other at what follows the working directory; a path outside it passes exactly the exclusions |
| OutputFilters.PopIncluding | cincan/tar_tool.py:226-229 | filter j is popped if and only if it includes and filter j - 1 was not popped; both lists keep the order |
| OutputFilters.PoppingConserves | cincan/tar_tool.py:226-229 | the popped and the remaining filters together are the filters, with multiplicity |
| OutputFilters.EverySecondOfARun | cincan/tar_tool.py:227-229 | in a run of include filters exactly those at even distance from its start are popped |
| OutputFilters.NoneLeftExactly | cincan/tar_tool.py:226-229 | no include filter is left among the others if and only if no two neighbouring filters both include |
| OutputFilters.WhatIsPopped | cincan/tar_tool.py:226-229 | something is popped exactly when some filter includes; otherwise all filters remain |
| OutputFilters.RemoveLeadingPaths | cincan/tar_tool.py:236-247 | one reverse-sorted pass keeps exactly the candidates that are no proper ancestor of another, though dropped ones add no ancestors |
| OutputFilters.EntryInPlainText | cincan/tar_tool.py:253-264 | a star-free ignore entry removes exactly the path it names, from the root or in the working directory, and everything below it; with a slash at its end only what is below |
| OutputFilters.EntryByGlob | cincan/tar_tool.py:253-264 | with stars: an entry ending in a star removes exactly what its glob matches, one ending in a slash what begins with a match, any other what it accepts and what begins with a match and a slash |
| OutputFilters.EntriesExactly | cincan/tar_tool.py:138-165 | the entries are the lines that are neither empty nor have a '#' as first character that is no blank, and the ignore file itself |
| OutputFilters.DefaultChoice | cincan/tar_tool.py:221-278 | without filters and stars: chosen is exactly what leads to no other candidate, lies in the working directory, and is not named by an entry or below it |
| OutputFilters.IgnoreFileStays | cincan/tar_tool.py:231-235 | the ignore file is never chosen unless defaults are left out or a filter includes |
| OutputFilters.IncludeStandsAlone | cincan/tar_tool.py:278-281 | of one filter that includes and any that exclude after it, the first alone decides, without the ignore file |
| OutputFilters.ExclusionsJoin | cincan/tar_tool.py:282-295 | with filters that all exclude, what they and the star-free ignore entries leave is chosen |
| OutputFilters.LeadsInPlainText | cincan/tar_tool.py:236-247 | a candidate leads to another exactly if that continues it with a slash |
| OutputFilters.CollectIgnoreFilters | cincan/tar_tool.py:253-264 | the ignore filters are those of the entries, in order |
| OutputFilters.MergeExclusions | cincan/tar_tool.py:284-293 | an ignore filter is merged in exactly when its pattern differs from that of the first user filter |
| OutputFilters.MergedKeepsAll | cincan/tar_tool.py:284-295 | the merged set keeps what all user exclusions and all ignore filters keep |
| OutputFilters.ApplyEach | cincan/tar_tool.py:294-295 | in whatever order the set is gone through, what all its filters keep remains |
| OutputFilters.ApplyFilters | cincan/tar_tool.py:266-300 | which filters decide in each of the five cases, and that nothing else is removed |
| OutputFilters.FilterFiles | cincan/tar_tool.py:221-301 | the result is, sorted and without new duplicates, exactly the candidates that lead to no other, lie in the working directory and pass the filters |
| AttachStream.HeaderFields | cincan/frontend.py:290-292 | for every 8 bytes, shifting and masking give the first byte and the number in the other seven, from which the header can be rebuilt |
| AttachStream.DocumentedHeader | cincan/frontend.py:276 | the documented header with a four-byte length is the header the program reads |
| AttachStream.DocumentedExactly | cincan/frontend.py:276-292 | for every 8 bytes, the length the program takes is that of the documented format if and only if bytes 1 to 3 are zero |
| AttachStream.UnpackContainerStream | cincan/frontend.py:259-301 | for every split of the reads, takes exactly one frame, or forgets a rest shorter than a header, or aborts in a payload cut short |
| AttachStream.FrameInBytes | cincan/frontend.py:285-301 | byte by byte: a frame in front of a stream adds its payload to the standard output if its first byte is 1, to the standard error if it is 2, and nowhere otherwise, and changes nothing else |
| AttachStream.DemultiplexInvertsEncode | cincan/frontend.py:285-301 | framing any frames and demultiplexing gives back, for each stream in order, the payloads up to the first empty frame; all of them if there is none |
| AttachStream.DemultiplexAnything | cincan/frontend.py:285-301 | any bytes are whole frames and an end; it aborts exactly when the end is a payload cut short, else it is fewer than 8 bytes or an empty frame |
| AttachStream.DecompositionIsUnique | cincan/frontend.py:285-301 | there is only one way to take the input apart like that |
| ContainerIo.ToolStream.Update | cincan/frontend.py:43-45 | length and hash are those of all the data so far |
| ContainerIo.Deliver | cincan/frontend.py:387-392 | data is counted and either collected or written, after what came before |
| ContainerIo.SendAll | cincan/frontend.py:367-370 | everything is sent once and in order despite partial sends |
| ContainerIo.FromContainer | cincan/frontend.py:372-392 | one frame goes to its stream, an unknown stream is discarded, an empty one closes the loop |
| ContainerIo.FromStdin | cincan/frontend.py:357-370 | what is read is sent; at its end writing is shut down, after which nothing can be sent |
| ContainerIo.IoLoop | cincan/frontend.py:345-394 | in every interleaving the terminal gets the demultiplexed streams and the container a prefix of the standard input, all of it if writing was shut down; the loop ends |
| ContainerIo.ContainerExec | cincan/frontend.py:303-423 | the same for the whole call, with the log: collected data, and digests of the nonempty streams if the command succeeded |
| Downloads.WorkDirInPlainText | cincan/tar_tool.py:32-34 | the working directory is the configured one with one slash at its end, the root if it is empty, `./` if the image has none |
| Downloads.TruncTowardsZero | cincan/tar_tool.py:427-429 | times lose their fraction towards zero |
| Downloads.ExplicitInPlainText | cincan/tar_tool.py:195-203 | without implicit output, the archives that are asked for are those of the explicit paths in order, each in the working directory unless it begins with a slash |
| Downloads.WorkDirComesFirst | cincan/tar_tool.py:189-193 | with implicit output the archive of the working directory is asked for first, and no other if it has everything; the root is never asked for as a whole |
| Downloads.FullNameInPlainText | cincan/tar_tool.py:306-327 | the members of the archive of a path are called by the path and what is below it, whether or not the path ends with a slash |
| Downloads.HostPathInPlainText | cincan/tar_tool.py:332-341 | the host path is what follows the working directory, or else the root; what is left must not begin with a slash, and other paths are skipped |
| Downloads.UnmodifiedExactly | cincan/tar_tool.py:415-441 | with an honest clock the answer is "unmodified" if and only if nothing was written, the size is that of the upload and the original is a whole second older than the upload |
| Downloads.TarTool.FetchFileTo | cincan/tar_tool.py:360-402 | host and outcome, exceptions included, are those of fetching to a free place or through the scratch name |
| Downloads.TarTool.DownloadFileSet | cincan/tar_tool.py:303-413 | work set, host, log and outcome after one archive, for every state before it |
| Downloads.TarTool.DownloadCandidates | cincan/tar_tool.py:186-217 | the same for working directory, explicit paths and the rest one by one |
| Downloads.Accounting | cincan/tar_tool.py:186-217 | in any run, every candidate is still to do or handled, never both, and handled only once |
| Downloads.LeftExactly | cincan/tar_tool.py:186-217 | when no exception is raised, what is left at the end is exactly what was not asked for: with implicit output what the container does not have, otherwise what is in no archive of the explicit paths |
| Downloads.HandledIsAsked | cincan/tar_tool.py:186-217 | nothing else is ever handled, also in a run that an exception ended |
| Reconciliation.FetchedFile | cincan/tar_tool.py:360-402 | on every host, a file is fetched if and only if no file stands where a directory is needed and what stands at its path is a file without a directory at its scratch name; it then has the container's content, directories on the way exist and the scratch file is gone |
| Reconciliation.FetchedDirectory | cincan/tar_tool.py:403-410 | a directory is made, with the way to it, if and only if something is there already or no file stands in its way; what is there stays |
| Reconciliation.FailedFetch | cincan/tar_tool.py:360-402 | a fetch that fails leaves the path itself as it was and changes at most the way to it and the scratch name |
| Reconciliation.UnmodifiedAgrees | cincan/tar_tool.py:342-344 | a file skipped as unmodified already agrees with the container |
| Reconciliation.LocalIsInjective | cincan/tar_tool.py:332-333 | different candidates have different host paths |
| Reconciliation.LocalLeaves | cincan/tar_tool.py:239-249 | a host path above another comes from a candidate above the other, so no file is written where a directory is needed |
| Reconciliation.ChosenAreInPlace | cincan/tar_tool.py:236-249 | the candidates that are left lie properly in the working directory, and none is a directory on the way to another |
| Reconciliation.HostAgreesWithContainer | cincan/tar_tool.py:186-217 | on every host, obstructed or not: either every handled candidate agrees with the container, only paths of fetched files and new directories differ from before, no scratch file remains and the log lists what was fetched; or an exception stopped the passes at a candidate with something in its way, with all that for those before it |
| Reconciliation.OkExactly | cincan/tar_tool.py:186-217 | no exception is raised if and only if nothing on the host is in the way of any candidate that is asked for: that the container has, or, without implicit output, that an archive of the explicit paths has |
| Reconciliation.OneFileIsBlocked | cincan/tar_tool.py:373-386 | a directory where the file goes makes the download fail, and exactly the scratch file is left on the host |
| Reconciliation.OneFileComesHome | cincan/tar_tool.py:186-217 | when one uploaded file was written any number of times, the last content replaces it on the host, and nothing else changes on a host of any other content |
| Reconciliation.OneExplicitFileComesHome | cincan/tar_tool.py:195-203 | the same when nothing but its name is asked for |
| Reconciliation.ScratchFileIsLost | cincan/tar_tool.py:373-402 | a successful fetch leaves everything but its path and the way to it alone if and only if there was no file to replace or nothing of the scratch name |
| Scratch.OnlyScratchNamesAreLost | cincan/tar_tool.py:186-217 | whatever has scratch names, on the host or among the candidates: without an exception every handled candidate agrees and all else is as before, except that paths with the scratch name of a fetched candidate may be gone |
| Scratch.OrderDecides | cincan/tar_tool.py:317-402 | of two candidates, one with the scratch name of the other, which replaces a host file: it comes home if and only if it is fetched, and after the other; otherwise it is gone from the host |
| Reconciliation.DownloadFiles | cincan/tar_tool.py:167-217 | from the container's changes to the host: exactly the chosen paths are handled or left; the host agrees or the passes stopped at an obstruction; when they do; and what is left, with implicit output or without |
| Paths.ParseIsNormal | cincan/file_tool.py:114 | parsing a path again changes nothing |
| Paths.ParseIgnores | cincan/file_tool.py:114 | nothing or a dot between two slashes makes no difference to a path |
| Paths.ParentOfChild | cincan/file_tool.py:124 | the parent of a path is what stands before its last slash |
| Uploads.FileResolver.constructor | cincan/file_tool.py:83-102 | the host files are what the input filters keep, in order, of a list with the output directories first, duplicates only among them, exactly the files the arguments need, and every directory argument or piece with its whole subtree |
| Uploads.FileResolver.FileExists | cincan/file_tool.py:104-147 | when a piece of the command line counts as a file, the name it gets, and exactly what is then listed |
| Uploads.NameIsKept | cincan/file_tool.py:130-139 | a relative path without `..` is called in the container what the argument says, slashes at its end included |
| Uploads.FileResolver.FindDirectoryAbove | cincan/file_tool.py:122-128 | finds whether a directory on the way exists and is not listed |
| Uploads.FileResolver.IncludeSubDirs | cincan/file_tool.py:172-179 | lists the files and everything below them, keeping list and seen-set equal |
| Uploads.FileResolver.Analyze | cincan/file_tool.py:149-166 | list and seen-set stay equal without new duplicates, and hold exactly what the arguments add one after the other |
| Uploads.ArgsAreIncluded | cincan/file_tool.py:153-162 | what the arguments add holds the whole subtree of every directory argument, and of every directory among the pieces of an argument that is no file itself, blanks or not |
| Uploads.ArgumentInPlainText | cincan/file_tool.py:149-156 | an argument without `..` that exists is listed as it is, a directory with everything below it, and nothing else is |
| Uploads.BelowInPlainText | cincan/file_tool.py:172-179 | below a directory is what exists and continues it with a slash |
| Uploads.FoundInPlainText | cincan/file_tool.py:115-128 | a piece counts as a file exactly if it exists and is not all slashes, or is relative without `..` with an existing unlisted directory on its way, and is a piece or has a blank |
| Uploads.ListedIsNormal | cincan/file_tool.py:104-147 | every path that is listed is normal, whatever the arguments |
| Uploads.FileResolver.FilterInput | cincan/file_tool.py:100-102 | keeps, in order, what every input filter keeps |
| Uploads.FileResolver.DetectUploadFiles | cincan/file_tool.py:189-213 | first, sorted, what is listed and exists or is an output directory; then, for each missing file, the existing directory on its way that all others on its way are above, unless an uploaded file is it or lies below it |
| Uploads.NearestExactly | cincan/file_tool.py:208-210 | the directory that is looked for is the one on the way that exists and has all other existing ones on the way above it |
| Uploads.PathOrderInPlainText | cincan/file_tool.py:191 | in the order of paths a directory comes before what is in it, and what is in it is ordered by name |
| Uploads.FileResolver.ResolveUploadFiles | cincan/file_tool.py:181-187 | one upload per host file, under its archive name, for exactly these files |
| Uploads.UploadInPlainText | cincan/file_tool.py:215-231 | what begins with a slash or has two dots in a row is uploaded under its resolved name without the slash in front, anything else under its own name |
| Uploads.EntryOnTheWay | cincan/file_tool.py:172-179 | everything below a directory is reached through one of its entries |
| UploadTar.ArchiveNamesAreRelative | cincan/file_tool.py:215-231 | archive names never begin with a slash, on which packing rests to end |
| UploadTar.ArchiveNamesCollide | cincan/file_tool.py:215-231 | two host files share an archive name exactly when one is the other from the root |
| UploadTar.TarWriter.AddParents | cincan/tar_tool.py:97-102 | adds the missing directories on the way to a name, each once, and ends |
| UploadTar.TarWriter.CreateTar | cincan/tar_tool.py:85-127 | every directory on the way precedes each archive name, made-up directories occur once, statistics and log record what was read |
| UploadTar.PackedInPlainText | cincan/tar_tool.py:104-125 | a host file is packed with its content and time, what is missing becomes a new directory |
| UploadTar.RecordedInPlainText | cincan/tar_tool.py:108-111 | the statistics of an archive name are the length and time of the one host file of that name and a time during the upload |
| UploadTar.MembersExactly | cincan/tar_tool.py:93-125 | the member names are exactly the archive names and their proper ancestors |
| UploadTar.HasMemberExactly | cincan/file_tool.py:189-231 | a relative path is in the tar if and only if a file that is uploaded, by its relative path or by its resolved path from the root, is or lies below it |
| UploadTar.NearestIsMemberExactly | cincan/file_tool.py:199-213 | the nearest existing directory of a missing file is in the tar if and only if no kept file leads through it by its text, or one does by its name in the archive, or a directory added for another missing file does |
| UploadTar.NearestIsMember | cincan/file_tool.py:199-213 | it always is when no listed path is relative with `..` |
| UploadTar.DotsHideADirectory | cincan/file_tool.py:83-213 | the argument `d/file` with the output directory `d/../n`, for any names, from which comes a list for which `d` is not in the tar |
| UploadTar.UpHidesADirectory | cincan/file_tool.py:83-213 | the same without output directories, for the arguments `d/..` and `d/file` |
| UploadTar.Pack | cincan/frontend.py:445-451 | resolving and packing together |
| RoundTrip.UploadComesBack | cincan/tar_tool.py:109-112 | the size and times recorded at the upload are an honest history of what the container has at that path after any writes since, so that they mean what the download takes them to mean |
| RoundTrip.SkippedIsUpToDate | cincan/tar_tool.py:415-441 | after an upload and any writes since, a file that is skipped as unmodified is on the host what it is in the container |
| RoundTrip.RunTool | cincan/frontend.py:425-457 | upload, command and download together: for any command, any filters and any obstructions on the host, the host in the end agrees with the container on what was handled, or it stopped at an obstruction; and exactly when |

## Left out

- Uploads.FileResolver.Analyze: the splitting of an argument is a parameter and the rewritten arguments are not modelled, because `shlex` and `str.replace` are library behaviour.
- Downloads.TarTool.DownloadFileSet: only without an output tar (`--out`); members are files and directories; timestamps of log entries are left out.
- AttachStream.UnpackContainerStream: only without TTY, where the stream has no frames.
- ContainerIo.IoLoop: a select that fails for another reason than the standard input, failing sends, and flushing are not modelled.
- Inspector.CommandInspector.FanIn: the nodes of the tree are values built in the loops, not objects appended to; how a path is shown is a parameter.
- Inspector.SearchIsComplete: digests are required to be free of ':', as hexadecimal digests are.
- OutputFilters.FilterFiles: candidates are normalised absolute paths, the lines of the ignore file are given, and blanks before a comment are the four common ones.
- Reconciliation.HostAgreesWithContainer: required are archives that tell what the container has, digests that tell files apart, that what is skipped agrees, candidates with a relative name in the working directory, and scratch names that are free where one is used; `OnlyScratchNamesAreLost` and `OrderDecides` say what happens without the last.
- RoundTrip.RunTool: besides that, archive names of candidates come from relative uploads that are not from the future, the container's clock is not behind, and nobody else changes the host meanwhile; the command's exit code, which decides whether there is a download, is left out.
- Uploads.FileResolver.FileExists: no symbolic links; different names of one file are different paths, and of the endlessly many names with `..` the host map holds finitely many; two leading slashes are read as one.
- The output of the tree as text, argument quoting, reading and writing the log as JSON, time formatting.
- Docker client calls, container life cycle, shell detection, image building and fetching, version checks, configuration, terminal settings, logging and argument parsing.
- Providing the input as a tar (`--in`), which is uploaded as it is.
- Reading filters from the command line, where a leading `^` makes a filter exclude.
