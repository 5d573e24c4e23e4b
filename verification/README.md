# Verified models of the console plugins

This project models the self-contained algorithms and state machines of the console
plugins in Dafny and proves what they are for. `dafny verify dfyconfig.toml` checks
all of it. Nothing of the original program is executed.

What is modelled, by part:

- **Log lines.** `LogLines` is a plain log: retained lines, the number of the first,
  the unfinished line. `LogBuffers.LogBuffer` is the paged, reference-counted,
  two-ended index over three arrays; every operation is proved to do to the plain log
  what its specification does, and the plain log is then related to the stream of
  everything that was appended. `Geometry`, `Ansi` and `Hints` are the row arithmetic,
  the escape sequences and the format annotation of the viewer; `AnsiCodes` says what
  ends a sequence and what each code does.
- **Files.** `RootFs` is the sandbox resolver on a filesystem that is a map from
  component lists to nodes, proved equal to a recursive root-clamped resolution.
  `Archive` flattens a tree into members, `Extract` writes members through the
  resolver, `Outcomes` says what its success and its failures mean, and `RoundTrip` puts
  the two together. `Destination` says exactly when a
  destination with `..` is safe, `Confinement` where members land and which archives stay
  in their destination, `Escapes` how others leave it. `Paths`, `FileOps`, `Reaching` and
  `Rebuild` hold the laws in between.
- **Punycode.** `Punycode` is the decoder, proved to undo `Rfc3492`, the encoder of RFC
  3492, which shares no parameter, table or function with it.
- **Node terminal.** `HostFiles` is the text rewriting of passwd, shadow and group,
  `Pipeline` the ordered setup with its one rollback, `Uids` the scan for a free UID,
  and `UidLock` any number of sessions that allocate and leave at the same time.
- **DNS.** `Dns` is the name codec with compression pointers, `DnsResponse` the
  response parser and a writer that it undoes.
- **Concurrent state machines.** `Controller` is the Namespace-to-Project controller
  on a client-go work queue, `Pool` the helper pool, `Cache` the
  stale-while-revalidate cache, each as a step relation whose runs are all
  interleavings.

`Text` and `Wrappers` hold what the parts share: searching, splitting and joining
sequences, and an optional value.

Where the code and its own comments differ, the code is followed: the DNS parser's
comment says that it validates the query type, but only the identifier is compared
(plugins/external-dns/api/dnsquery.go:165-174); and the comment on `Extract` says that safe
names keep members inside the destination (plugins/filesystem/internal/helper/extract.go:88-91),
which links in the archive defeat.

Some properties that one would expect are false of the code. Each has a member that
shows it and one that says exactly when it holds:

- Sequence numbers never repeat (plugins/logging/src/logs/buffer.ts:56):
  `LogLines.NumbersAreReused`, `LogLines.ReuseExactly`.
- A download read back gives the same lines: `LogLines.CarriageReturnKept`,
  `LogLines.DownloadRoundTrip`.
- Unpacking touches nothing outside the destination. It can leave by a link that the archive
  makes (`Escapes.LinkEscapes`), by a link that it overwrites (`Escapes.OverwriteFollows`), and
  by a `..` after a link in the destination itself (`Destination.DotDotSpills`,
  `Escapes.SkewEscapes`). `Confinement.ItemLands` says exactly when one member stays inside,
  `Confinement.LeavesByMember` that without overwriting an archive leaves exactly when one of
  its members does, and `Confinement.ExtractConfined` which archives never leave, whatever is
  on the disk. `Destination.ItemExactly` and `Destination.LeafExactly` say exactly when the
  destination's own spelling does no harm.
- Leaving a group undoes joining it: `HostFiles.EmptyFieldLost`, `HostFiles.MemberDropped`,
  `HostFiles.EditUndone`.
- A session leaves the home directory as it found it: `Pipeline.EmptyHomeLost`,
  `Pipeline.Session.Run`. An existing home also keeps the owner that the session gave it,
  which is not modelled.
- No session gets a UID that passwd has: `UidLock.HiddenUidGiven`, `UidLock.ReadExactly`,
  `UidLock.SeenExactly`, `UidLock.CollisionIsHidden`.
- `Acquire` returns a helper that is not marked dead: `Pool.DeadHelperHandedOut`,
  `Pool.StillbornHandedOut`, `Pool.DeadExactly`.

## Model

| member | source | states |
|---|---|---|
| `LogBuffers.LogBuffer.constructor` | plugins/logging/src/logs/buffer.ts:71-77 | an empty buffer: no lines, number 0 next, nothing pending, limits clamped as the options say |
| `LogBuffers.LogBuffer.Append` | plugins/logging/src/logs/buffer.ts:118-146 | lines, numbers and pending fragment become those of the plain log after the same append, with the last `maxLines` kept; the whole index stays consistent, and a full tail page is sealed as soon as it ends on a line boundary, never before |
| `LogBuffers.LogBuffer.FlushPartial` | plugins/logging/src/logs/buffer.ts:153-161 | the same for committing the unfinished line |
| `LogBuffers.LogBuffer.Prepend` | plugins/logging/src/logs/buffer.ts:197-234 | the non-blank lines of the chunk come in front under lower numbers, nothing is evicted, and a blank-only chunk still leaves its page |
| `LogBuffers.LogBuffer.Clear` | plugins/logging/src/logs/buffer.ts:236-246 | back to the empty log |
| `LogBuffers.LogBuffer.LineAt` | plugins/logging/src/logs/buffer.ts:164-170 | exactly the abstract line of that number, or nothing if it is not retained |
| `LogBuffers.LogBuffer.AllText` | plugins/logging/src/logs/buffer.ts:177-186 | every retained line, each with a newline |
| `LogBuffers.LogBuffer.CharLength` | plugins/logging/src/logs/buffer.ts:105-111 | the characters of all pages together |
| `LogBuffers.LogBuffer.CompactOrGrow` | plugins/logging/src/logs/buffer.ts:299-318 | makes room at the end; the live triples and their order do not change |
| `LogBuffers.LogBuffer.ReserveFront` | plugins/logging/src/logs/buffer.ts:272-292 | makes room before the first triple; the live triples do not change |
| `LogBuffers.LogBuffer.PushLine` | plugins/logging/src/logs/buffer.ts:248-263 | one more line, without its carriage return, counted on its page |
| `LogBuffers.LogBuffer.Evict` | plugins/logging/src/logs/buffer.ts:321-338 | keeps the last `maxLines` and raises the first number by what went; no page in use is blanked |
| `LogBuffers.LogBuffer.Replay` | plugins/logging/src/logs/buffer.ts:118-246 | for every run of operations the buffer shows what the plain log shows |
| `LogBuffers.FindExtents` | plugins/logging/src/logs/buffer.ts:203-214 | the extents found in a prepended chunk are its non-empty lines, in order |
| `LogIndex.PushConsistent` | plugins/logging/src/logs/buffer.ts:248-263 | after a push `pageRefs[p]` is still the number of retained lines of page p, and every extent lies inside its page |
| `LogIndex.DropConsistent` | plugins/logging/src/logs/buffer.ts:326-335 | after dropping the oldest line the counts are exact again, and a page is blanked only when no retained line and no unfinished line uses it |
| `LogIndex.PrependConsistent` | plugins/logging/src/logs/buffer.ts:202-232 | the same after a chunk was put in front, with pages out of reading order |
| `LogBuffers.BlankChunk` | plugins/logging/src/logs/buffer.ts:202-219 | a chunk without a non-blank line holds nothing but newlines, and so does the page it leaves |
| `LogIndex.BlankConsistent` | plugins/logging/src/logs/buffer.ts:202-219 | a page of nothing but newlines that no line refers to leaves the index consistent |
| `LogIndex.SealConsistent` | plugins/logging/src/logs/buffer.ts:139-143 | the same when a full page is sealed |
| `LogLines.Chunking` | plugins/logging/src/logs/buffer.ts:118-146 | appending a and then b leaves the same lines, numbers and fragment as appending a+b, with a CRLF pair or a sealed page in between or not |
| `LogLines.FlushIsNewline` | plugins/logging/src/logs/buffer.ts:153-161 | flushing is appending the missing newline |
| `LogLines.RunAgrees` | plugins/logging/src/logs/buffer.ts:85-102 | over every run, `endSeq` is the number of lines committed since clear, `firstSeq` is the count of lines evicted minus that of lines prepended, and each streamed line that is retained is the line of its number |
| `LogLines.RunIsLastLines` | plugins/logging/src/logs/buffer.ts:321-338 | over every run of appends and flushes the retained lines are the last `maxLines` of the whole stream |
| `LogLines.OlderConcat` | plugins/logging/src/logs/buffer.ts:204-233 | a newline separates the lines that a prepended chunk adds |
| `LogLines.OlderLine` | plugins/logging/src/logs/buffer.ts:204-233 | between newlines a chunk adds one line, without one final carriage return, or none if it is empty |
| `LogLines.PrependConcat` | plugins/logging/src/logs/buffer.ts:197-234 | prepending a chunk is prepending its parts, the later one first: text and numbers |
| `LogLines.PrependLine` | plugins/logging/src/logs/buffer.ts:197-234 | prepending one line puts it in front under the number before the first |
| `LogLines.RunStable` | plugins/logging/src/logs/buffer.ts:299-338 | a line that stays retained keeps its number and text |
| `LogLines.GivenRange` | plugins/logging/src/logs/buffer.ts:85-102 | the numbers given to lines since the last clear are exactly those from the least `firstSeq` so far to `endSeq` |
| `LogLines.ReuseExactly` | plugins/logging/src/logs/buffer.ts:197-234 | over every run, an operation gives a line a number that an earlier line had exactly when it prepends a chunk with a non-blank line while `firstSeq` is above its least value since the last clear |
| `LogLines.NumbersAreReused` | plugins/logging/src/logs/buffer.ts:231-232 | a run from the empty buffer in which that happens: number 0 is one line, is evicted, and is then another |
| `LogLines.DownloadRoundTrip` | plugins/logging/src/logs/buffer.ts:177-186 | appending the downloaded text to an empty buffer gives the last `maxLines` lines exactly when none of those ends in a carriage return |
| `LogLines.CarriageReturnKept` | plugins/logging/src/logs/buffer.ts:249-252 | a stream whose retained line ends in a carriage return, and whose download is read back as another line |
| `LogLines.RunLinesFree` | plugins/logging/src/logs/buffer.ts:118-234 | no retained line ever holds a newline |
| `Geometry.TopOf` | plugins/logging/src/logs/LogViewer.tsx:483-495 | the offset of a row is that many row heights plus every expansion above it |
| `Geometry.IndexAt` | plugins/logging/src/logs/LogViewer.tsx:498-516 | for every offset the row r with Top(r) <= offset < Top(r + 1) |
| `Geometry.TotalHeight` | plugins/logging/src/logs/LogViewer.tsx:477-481 | the rows and the sum of all expansions are where a row after the last would start |
| `Geometry.RowInList` | plugins/logging/src/logs/LogViewer.tsx:481-516 | an offset in [0, totalHeight) is at a row of the list |
| `Geometry.ExpansionsOrdered` | plugins/logging/src/logs/LogViewer.tsx:466-475 | the expansions come in row order, one to a row, and are exactly those of the expanded rows of the list |
| `Geometry.SortedIsExpansions` | plugins/logging/src/logs/LogViewer.tsx:466-475 | whatever filtering and sorting yields in row order with these elements is this list |
| `Geometry.FirstVisible` | plugins/logging/src/logs/LogViewer.tsx:518-518 | no row that ends below the scroll position is before it, and it is at most 25 rows early |
| `Geometry.LastVisible` | plugins/logging/src/logs/LogViewer.tsx:519-522 | no row that starts above the bottom is after it, and it is at most 25 rows late |
| `Geometry.Mounted` | plugins/logging/src/logs/LogViewer.tsx:518-522 | every row that meets the viewport is mounted, and at most 25 more on either side |
| `Ansi.ScanEscape` | plugins/logging/src/logs/ansi.ts:232-291 | each scan strictly advances, stays inside the text, and finds SGR parameters exactly where `Scan` does |
| `AnsiCodes.ScanExactly` | plugins/logging/src/logs/ansi.ts:232-291 | where every sequence ends, whole or broken: a control sequence at the first character that is no parameter or intermediate one, a string at the first BEL or ESC backslash, a charset sequence after its first other character, or at the end of the text; and that it is an SGR one exactly when it ends in `m` and has no private marker |
| `AnsiCodes.EscapeExactly` | plugins/logging/src/logs/ansi.ts:40-42 | sequences begin at ESC and at U+009B, and nowhere else |
| `Ansi.ApplyParams` | plugins/logging/src/logs/ansi.ts:162-225 | the parameters are applied from left to right, with those that an extended colour consumes skipped |
| `AnsiCodes.PartsShown` | plugins/logging/src/logs/ansi.ts:297-337 | a text made of characters, colour sequences and other whole sequences shows the characters, each in the style that the colours before it say |
| `AnsiCodes.CodeByField` | plugins/logging/src/logs/ansi.ts:169-213 | what each number does to each field of the style, field by field, and that all others do nothing |
| `AnsiCodes.OneCode` | plugins/logging/src/logs/ansi.ts:162-225 | a sequence with one number does what its code does |
| `AnsiCodes.NumberRead` | plugins/logging/src/logs/ansi.ts:168-168 | a row of digits is the number it spells |
| `AnsiCodes.SignRead` | plugins/logging/src/logs/ansi.ts:168-168 | a sign in front is part of the number |
| `AnsiCodes.PointRead` | plugins/logging/src/logs/ansi.ts:168-168 | so are a point and zeros behind |
| `AnsiCodes.Reset` | plugins/logging/src/logs/ansi.ts:164-170 | a sequence without numbers is a reset |
| `AnsiCodes.NoUnderline` | plugins/logging/src/logs/ansi.ts:177-180 | `4:0` takes the underline away |
| `AnsiCodes.PaletteCode` | plugins/logging/src/logs/ansi.ts:126-160 | `38;5;n`, `48;5;n` and `58;5;n` set the colour they name, the last none, and what follows is read on its own |
| `AnsiCodes.RgbCode` | plugins/logging/src/logs/ansi.ts:126-160 | the same for `38;2;r;g;b` |
| `AnsiCodes.OtherColour` | plugins/logging/src/logs/ansi.ts:126-160 | of another mode only the mode is skipped |
| `AnsiCodes.ColonCode` | plugins/logging/src/logs/ansi.ts:126-160 | the forms with colons, with or without a colour space |
| `Ansi.SgrJoin` | plugins/logging/src/logs/ansi.ts:162-225 | one sequence with two parameter lists does what the two sequences do, unless the first list ends inside an extended colour |
| `Ansi.ParseAnsi` | plugins/logging/src/logs/ansi.ts:297-337 | the runs spell the shown characters in order, each in the style that the SGR sequences before it add up to; no run is empty and neighbours differ in style |
| `Ansi.PiecesAreText` | plugins/logging/src/logs/ansi.ts:320-334 | the kept characters and the dropped sequences, laid end to end, are the input; every dropped piece begins with an escape |
| `Ansi.ShownIsKept` | plugins/logging/src/logs/ansi.ts:297-337 | what the runs show is the input minus the scanned sequences, whatever the style |
| `Ansi.StripAnsi` | plugins/logging/src/logs/ansi.ts:340-345 | the kept characters |
| `Ansi.StripIsClean` | plugins/logging/src/logs/ansi.ts:340-345 | no ESC or U+009B is left, and stripping again changes nothing |
| `Hints.ParseHints` | plugins/logging/src/logs/format-annotation.ts:30-79 | the hints of the token-by-token reading |
| `Hints.ParseUndoesPrint` | plugins/logging/src/logs/format-annotation.ts:30-79 | printing any list of hints and parsing it gives the hints back, the last entry for a container winning |
| `Hints.Looked` | plugins/logging/src/logs/format-annotation.ts:90-98 | with distinct containers each hint is found under its own |
| `Hints.Neighbours` | plugins/logging/src/logs/format-annotation.ts:34-77 | parsing `A,B`, where B begins with a container's entry, is parsing A overridden by parsing B |
| `Hints.BareToken` | plugins/logging/src/logs/format-annotation.ts:34-77 | a format alone is a container's entry, a column type a further column, anything else ends the columns |
| `Hints.FullToken` | plugins/logging/src/logs/format-annotation.ts:42-67 | an entry with its first column, which must have a name and a known type |
| `Hints.NoColumnToken` | plugins/logging/src/logs/format-annotation.ts:42-67 | an entry with nothing that could be a column behind its colon |
| `Hints.PlainToken` | plugins/logging/src/logs/format-annotation.ts:35-41 | a token without an equals sign is passed over if blank and else ends the columns |
| `Hints.OrphansDropped` | plugins/logging/src/logs/format-annotation.ts:22-28 | columns after an entry or token that could not be read go to no container |
| `Hints.BlankIgnored` | plugins/logging/src/logs/format-annotation.ts:35-41 | a blank token does not come between an entry and its columns |
| `Hints.TrimCuts` | plugins/logging/src/logs/format-annotation.ts:40-47 | trimming takes only white space, at both ends |
| `Hints.TrimEnds` | plugins/logging/src/logs/format-annotation.ts:40-47 | and all of it |
| `Hints.LowerExactly` | plugins/logging/src/logs/format-annotation.ts:44-47 | lower-casing takes A to Z to a to z |
| `RootFs.Resolve` | plugins/filesystem/internal/rootfs/root.go:56-112 | the resolution of a path string, ending on every filesystem by (40 - hops, components left) |
| `RootFs.WalkUnderRoot` | plugins/filesystem/internal/rootfs/root.go:71-110 | every successful walk stays under the root, has no `..`, all its proper prefixes are real directories, and a followed result is not a link |
| `RootFs.ResolveUnderRoot` | plugins/filesystem/internal/rootfs/root.go:56-112 | the same for every path string |
| `RootFs.WalkIsReached` | plugins/filesystem/internal/rootfs/root.go:71-110 | substituting link targets into the remaining components resolves to what resolving each link on its own does, with the same hop count |
| `RootFs.ResolveAgrees` | plugins/filesystem/internal/rootfs/root.go:56-112 | the loop and the recursive root-clamped resolution agree on every path string |
| `RootFs.ResolveIdempotent` | plugins/filesystem/internal/rootfs/root.go:56-112 | resolving the result again returns it |
| `RootFs.LinkStandsFor` | plugins/filesystem/internal/rootfs/root.go:71-110 | a path through a link resolves to what the path with the link's target in its place does, the target itself if it begins with a slash, else joined to the directory that the link is in, unless the hops run out |
| `RootFs.LinkItself` | plugins/filesystem/internal/rootfs/root.go:71-110 | the same with nothing after the link; not followed, it resolves to its own place |
| `RootFs.ChainResolves` | plugins/filesystem/internal/rootfs/root.go:95-105 | a chain of links is followed to its end exactly when it has at most 40 of them |
| `Paths.SplitComponents` | plugins/filesystem/internal/rootfs/rootfs.go:141-151 | the components that are neither empty nor `.`, in order |
| `Paths.ComponentsClean` | plugins/filesystem/internal/rootfs/rootfs.go:95-104 | cleaning a path does not change its components |
| `Paths.ComponentsJoinPath` | plugins/filesystem/internal/rootfs/rootfs.go:131-137 | joining a directory and a name joins their components |
| `Paths.LexicalRelative` | plugins/filesystem/internal/helper/extract.go:331-337 | a relative name cleans to a leading `..` exactly when it steps outside its start, and otherwise to proper names |
| `FileOps.Disk.MakeAll` | plugins/filesystem/internal/rootfs/root.go:235-261 | the directories are made component by component, each through links, up to the first failure |
| `Reaching.MkdirFromMakes` | plugins/filesystem/internal/rootfs/root.go:235-261 | when it succeeds every prefix of the path leads to a directory |
| `Reaching.MkdirFromLeads` | plugins/filesystem/internal/rootfs/root.go:235-261 | on a path that already leads to directories it succeeds and changes nothing |
| `Reaching.MkdirFromAdds` | plugins/filesystem/internal/rootfs/root.go:235-261 | whether or not it succeeds it only adds directories |
| `Reaching.FinalComponent` | plugins/filesystem/internal/rootfs/root.go:82-103 | following or not following the final component matters only for that component |
| `Extract.SafeNameExact` | plugins/filesystem/internal/helper/extract.go:323-339 | a member is refused exactly when its name holds a NUL, is absolute or steps outside the destination; any other becomes a path without `..` |
| `Extract.ExtractTar` | plugins/filesystem/internal/helper/extract.go:153-202 | the loop over the members, with its entry limit, byte budget, errors and partial results |
| `Extract.ExtractKeeps` | plugins/filesystem/internal/helper/extract.go:260-314 | without overwrite, whatever the archive holds and however the extraction ends, every entry that existed is unchanged |
| `Outcomes.MemberThere` | plugins/filesystem/internal/helper/extract.go:260-314 | a member reported as written is there: the directory, the link with its target, the file with all its bytes |
| `Outcomes.SuccessMeans` | plugins/filesystem/internal/helper/extract.go:153-202 | when the unpacking of any archive succeeds, every name was safe, every member was there at its turn, and the entries reported are the members that are not of other kinds, no more than the limit |
| `Outcomes.LimitsExactly` | plugins/filesystem/internal/helper/extract.go:153-202 | entries that come parents first, into free places, are unpacked with success exactly when their number and their bytes are within the limits, a byte limit used up to the last byte being none from then on; and then they are there |
| `Outcomes.RefusedAt` | plugins/filesystem/internal/helper/extract.go:283-292 | otherwise those before the first that exceeds a limit are there and counted, and that one is not there or has one byte more than was left |
| `Outcomes.SpecialTakes` | plugins/filesystem/internal/helper/extract.go:278-297 | overwriting replaces a file's content, and a special file takes the bytes and keeps none |
| `Rebuild.RebuildAll` | plugins/filesystem/internal/helper/extract.go:153-202 | extracting entries that come parents first, into free places, adds exactly those entries |
| `Archive.WriteTar` | plugins/filesystem/internal/helper/archive.go:31-92 | succeeds exactly when the path exists and its entries are within the limit, and then yields the members of the depth-first, name-ordered tour, special files left out |
| `Archive.Recurse` | plugins/filesystem/internal/helper/archive.go:118-158 | the same for every entry of the tree, with the running count |
| `Archive.BeforeExactly` | plugins/filesystem/internal/helper/archive.go:118-158 | the order of the names: a proper prefix first, else the smaller character at the first difference |
| `Archive.NameInArchive` | plugins/filesystem/internal/helper/archive.go:161-170 | a member's name is its path below the prefix, the whole path where the prefix does not fit, and `root` for `/` |
| `RoundTrip.NamedIsMembers` | plugins/filesystem/internal/helper/archive.go:161-170 | the members of a clean path are named by their place below the path's parent |
| `RoundTrip.TourParentsFirst` | plugins/filesystem/internal/helper/archive.go:118-158 | each directory appears before its children |
| `RoundTrip.ArchiveThenExtract` | plugins/filesystem/internal/helper/extract.go:153-202 | the archive extracted into an empty directory succeeds exactly when it is within the limits, and then adds under `<basename>` the same directories, file bytes and link targets, and nothing else |
| `RoundTrip.ArchiveRoundTrip` | plugins/filesystem/internal/helper/extract.go:92-151 | the whole round trip, with the destination made first; it may hold `..` if dropping that leads to the same place |
| `Destination.ItemExactly` | plugins/filesystem/internal/helper/extract.go:260-314 | a file or link at any depth, under real directories, is written, and nothing else, exactly when the lexically cleaned path to its parent leads to a directory, or the directory made in its stead is where a link goes that may overwrite it |
| `Destination.LeafExactly` | plugins/filesystem/internal/helper/extract.go:153-202 | the archive of a file or link, extracted into an empty directory, gives the copy and nothing else exactly when the cleaned destination leads to a directory too, or the same exception holds |
| `Destination.DotDotSpills` | plugins/filesystem/internal/helper/extract.go:260-265 | a destination with a link before a `..` for which that fails: another directory appears |
| `Reaching.HopsMoot` | plugins/filesystem/internal/rootfs/root.go:71-110 | the hops already made do not change where a path leads, except that they may run out |
| `Confinement.ItemLands` | plugins/filesystem/internal/helper/extract.go:260-314 | a file or link whose parent path leads, through links or not, to a directory where its name is free: it is written there exactly when the cleaned path leads as well, otherwise nothing changes; and it stays inside the destination exactly when that directory is the destination or below it |
| `Confinement.MkdirBelow` | plugins/filesystem/internal/rootfs/root.go:235-261 | going on from the destination through names that are no links, it only adds directories inside, and on success all of them are there |
| `Confinement.MemberInside` | plugins/filesystem/internal/helper/extract.go:153-202 | a member whose path passes no link changes only entries inside the destination, whether or not it succeeds, and makes a link only in its own place |
| `Confinement.ExtractConfined` | plugins/filesystem/internal/helper/extract.go:153-202 | an archive in which no member goes through a link that an earlier one made changes only entries inside a destination without links, whatever its members are and however the unpacking ends |
| `Confinement.EmptyConfined` | plugins/filesystem/internal/helper/extract.go:153-202 | the same for an empty destination that both its spellings lead to, overwriting or not |
| `Confinement.LeavesByMember` | plugins/filesystem/internal/helper/extract.go:153-202 | without overwrite an archive changes something outside its destination exactly when one of its members does at its turn |
| `Escapes.LinkEscapes` | plugins/filesystem/internal/helper/extract.go:260-277 | an archive of a link to a directory outside and a file below that link writes the file there, for every such destination and directory |
| `Escapes.SpelledDest` | plugins/filesystem/internal/rootfs/root.go:71-110 | every directory, named by its own path, is such a destination |
| `Escapes.OverwriteFollows` | plugins/filesystem/internal/helper/extract.go:271-277 | with overwrite, a link to a file outside and a file of the same name replace that file's content |
| `Escapes.SkewEscapes` | plugins/filesystem/internal/helper/extract.go:299-314 | with overwrite it is not enough that both spellings of the destination lead there: replacing a directory inside by a link can turn the cleaned one away |
| `Escapes.SkewedStarts` | plugins/filesystem/internal/rootfs/root.go:71-110 | there are filesystems of that kind |
| `Punycode.Adapt` | plugins/cert-manager/src/utils/punycode.ts:15-24 | the bias adaptation, with `>>` on 32 bits |
| `Punycode.FinalQuotientExactly` | plugins/cert-manager/src/utils/punycode.ts:23-23 | its last quotient rounds down whatever the sign of the divisor |
| `Punycode.QuotRemAreDivMod` | plugins/cert-manager/src/utils/punycode.ts:72-73 | the quotient and remainder used in the proofs are integer division and modulus |
| `Punycode.DecodeACE` | plugins/cert-manager/src/utils/punycode.ts:35-79 | the decoder's result, including both errors, for every input |
| `Punycode.DecodeInteger` | plugins/cert-manager/src/utils/punycode.ts:53-69 | one variable-length integer, or the error |
| `Punycode.IntegerRoundTrip` | plugins/cert-manager/src/utils/punycode.ts:54-69 | reading inverts writing a variable-length integer at every bias and weight |
| `Punycode.ReadThenInsert` | plugins/cert-manager/src/utils/punycode.ts:52-76 | reading and inserting in one loop is reading all deltas, with `oldi === 0` exactly for the first, and then inserting them |
| `Punycode.InsertionAdvances` | plugins/cert-manager/src/utils/punycode.ts:72-75 | every insertion takes (n, i) strictly forward |
| `Punycode.DeltasRoundTrip` | plugins/cert-manager/src/utils/punycode.ts:52-76 | the deltas of any list come back |
| `Punycode.DeltasInsert` | plugins/cert-manager/src/utils/punycode.ts:70-75 | the deltas of the encoder of section 6.3 of RFC 3492 insert the original code points |
| `Punycode.PunycodeRoundTrip` | plugins/cert-manager/src/utils/punycode.ts:35-79 | decoding what the encoder of RFC 3492 writes returns the original code points |
| `Punycode.DigitExactly` | plugins/cert-manager/src/utils/punycode.ts:27-32 | a code unit is a digit exactly when the encoder writes that digit so, or in the other case |
| `Punycode.DecodedCase` | plugins/cert-manager/src/utils/punycode.ts:52-69 | the case of the letters after the last delimiter does not matter |
| `Punycode.DecodedDigits` | plugins/cert-manager/src/utils/punycode.ts:52-79 | whatever is decoded has letters and digits only after its last delimiter, and gives code points |
| `Punycode.AcePrefix` | plugins/cert-manager/src/utils/punycode.ts:84-93 | an ACE label is one that begins with `xn--` in either case |
| `Punycode.OddLabelStays` | plugins/cert-manager/src/utils/punycode.ts:84-97 | a label that is no ACE label, or has something else than letters and digits behind its last delimiter, is shown as it is |
| `Punycode.Utf16RoundTrip` | plugins/cert-manager/src/utils/punycode.ts:79-79 | the code units made of code points read back as those, as RFC 2781 reads them |
| `Punycode.LabelRoundTrip` | plugins/cert-manager/src/utils/punycode.ts:84-93 | the same for an `xn--` label, and plain labels are left alone |
| `Punycode.HostNameRoundTrip` | plugins/cert-manager/src/utils/punycode.ts:97-97 | the same for every label of a host name |
| `Dns.EncodeName` | plugins/external-dns/api/dnsquery.go:61-75 | the labels of the name, length-prefixed, or the error for one over 63 bytes |
| `Dns.RefusedExactly` | plugins/external-dns/api/dnsquery.go:61-75 | a name is refused exactly when a piece between its dots has more than 63 bytes |
| `Dns.DecodeName` | plugins/external-dns/api/dnsquery.go:120-163 | terminates on every message, pointer loops included, never reads outside it, and resumes in (offset, len]; equals the recursive reading |
| `Dns.ResumeInside` | plugins/external-dns/api/dnsquery.go:120-163 | a name that was read ends inside the message, after its start |
| `Dns.SpelledIsRead` | plugins/external-dns/api/dnsquery.go:120-163 | whatever is spelled with at most 64 pointers is read as it is spelled |
| `Dns.ReadIsSpelled` | plugins/external-dns/api/dnsquery.go:120-163 | and nothing else is read |
| `Dns.NameExactly` | plugins/external-dns/api/dnsquery.go:120-163 | a name can be read exactly when it is spelled with at most 64 pointers, and reads as its labels joined by dots |
| `Dns.DecodeInvertsEncode` | plugins/external-dns/api/dnsquery.go:61-75 | decoding inverts encoding at any position of any message |
| `Dns.DecodeThroughPointer` | plugins/external-dns/api/dnsquery.go:138-149 | and through a pointer, or labels followed by one |
| `Dns.ProperName` | plugins/external-dns/api/dnsquery.go:61-75 | a name without leading, trailing or doubled dots comes back as it was |
| `DnsResponse.ParseResponse` | plugins/external-dns/api/dnsquery.go:167-236 | total on every byte string, with its errors and partial records |
| `DnsResponse.Refusals` | plugins/external-dns/api/dnsquery.go:168-192 | a message without a header, with another identifier or with a response code other than 0 and 3 gives an error and no records; success means none of these |
| `DnsResponse.ParseExactly` | plugins/external-dns/api/dnsquery.go:167-236 | every message with the right header: accepted exactly when its question names can be read, its code is 0 or 3 and its answers are whole up to their count or the end of the message; its records are those of its whole answers in order |
| `DnsResponse.SkippedExactly` | plugins/external-dns/api/dnsquery.go:181-188 | the question section is passed over as far as its names can be read |
| `DnsResponse.AnsweredExactly` | plugins/external-dns/api/dnsquery.go:195-233 | the answer section: what the whole answers contribute is kept, and the first that is not whole is an error |
| `DnsResponse.ParseInvertsSerialize` | plugins/external-dns/api/dnsquery.go:167-236 | parsing a well-formed response, with plain or compressed names and anything behind its answers, returns exactly its A, AAAA and CNAME records in order with their TTLs |
| `HostFiles.AppendTransform` | plugins/terminal/node-terminal/src/identity.c:111-127 | the text, closed by a newline, and the entry |
| `HostFiles.RemoveTransform` | plugins/terminal/node-terminal/src/identity.c:133-148 | the text without the lines that begin with the prefix |
| `HostFiles.RemoveUndoesAppend` | plugins/terminal/node-terminal/src/identity.c:111-148 | removing a user's entries undoes appending one, up to a final newline |
| `HostFiles.GroupMemberTransform` | plugins/terminal/node-terminal/src/identity.c:329-386 | every line of the group edited, the others passed through; empty fields collapse and the member buffer cuts |
| `HostFiles.EditUndone` | plugins/terminal/node-terminal/src/identity.c:329-396 | joining and leaving restores a line exactly when it was in canonical form, did not already list the user, and its members leave room for the user or not for one character of the name |
| `HostFiles.EmptyFieldLost` | plugins/terminal/node-terminal/src/identity.c:340-386 | a line with an empty password field comes back with its fields moved up |
| `HostFiles.MemberDropped` | plugins/terminal/node-terminal/src/identity.c:340-386 | a user who was a member already is no longer one |
| `HostFiles.LeaveUndoesJoin` | plugins/terminal/node-terminal/src/identity.c:398-452 | joining any of the groups and leaving them again restores the file |
| `Pipeline.RollbackRestores` | plugins/terminal/node-terminal/src/pipeline.c:231-268 | from any point of the setup, rollback restores accounts, home, mounts, tty alias, binary and lock |
| `Pipeline.Session.Rollback` | plugins/terminal/node-terminal/src/pipeline.c:231-268 | called at any point of the setup, it restores the host and clears the flags |
| `Pipeline.Session.WriteIdentity` | plugins/terminal/node-terminal/src/identity.c:150-193 | all three entries are written under the lock, or what was written is taken back; once written, passwd has gained the first 511 characters of the user's seven fields and shadow a line whose password is locked |
| `Pipeline.LiveGroup` | plugins/terminal/node-terminal/src/identity.c:164-167 | the group file of a live session has gained its own group's line, without password or members, and the user in each group joined |
| `Pipeline.NameIsNew` | plugins/terminal/node-terminal/src/identity.c:260-268 | a name that passwd has is given up for the fallback, and the home goes by the name |
| `Pipeline.Session.InheritGroups` | plugins/terminal/node-terminal/src/identity.c:398-442 | joins exactly the groups found for which the rewrite succeeds, in order, and remembers them |
| `Pipeline.Session.AllocUid` | plugins/terminal/node-terminal/src/identity.c:73-97 | the lock is kept only together with a UID, and that is one no passwd line takes |
| `Pipeline.LiveUid` | plugins/terminal/node-terminal/src/identity.c:150-160 | once its entry is written, the UID is that of the session's own passwd line and of no other |
| `Pipeline.Session.MkdirHome` | plugins/terminal/node-terminal/src/mountns.c:194-205 | the home is made, or one that is there is taken; if it cannot be given to the session it is removed again, unless `rmdir` refuses |
| `Pipeline.Session.BindCtty` | plugins/terminal/node-terminal/src/mountns.c:244-273 | the alias is made and mounted, or not there |
| `Pipeline.Session.PublishBinary` | plugins/terminal/node-terminal/src/pipeline.c:135-195 | the binary is published whole, or not there |
| `Pipeline.Session.Run` | plugins/terminal/node-terminal/src/pipeline.c:270-464 | whichever step fails, and when the session ends, the host is restored; a run that gets to the home leaves it there or not as it was exactly when it was absent, had something in it, or was a mount point; it succeeds exactly when no step fails, after a moment at which everything was set up, the UID was nobody else's, and passwd and shadow had the account with its password locked |
| `Pipeline.EmptyHomeLost` | plugins/terminal/node-terminal/src/mountns.c:194-211 | a run in which no step fails, and which ends without the empty home that was there |
| `Uids.FindFreeUid` | plugins/terminal/node-terminal/src/identity.c:16-71 | the least UID of the range that no line takes, and none only if all are taken |
| `Uids.StrtoulDecimal` | plugins/terminal/node-terminal/src/identity.c:45-46 | reading a printed UID gives it back |
| `Uids.StrtoulExactly` | plugins/terminal/node-terminal/src/identity.c:45-46 | a number is read after white space and a sign up to the first character that is no digit; one too large for 64 bits is refused, a negative one wraps around |
| `Uids.StrtoulNothing` | plugins/terminal/node-terminal/src/identity.c:45-46 | without a digit there nothing is read |
| `UidLock.StepKeepsInv` | plugins/terminal/node-terminal/src/identity.c:73-105 | every step of every session keeps: the holder's choice is untaken, and a session's UID is that of its own line and no other |
| `UidLock.UidsDistinct` | plugins/terminal/node-terminal/src/pipeline.c:348-386 | over all interleavings no two sessions have the same UID |
| `UidLock.UidsReserved` | plugins/terminal/node-terminal/include/shim.h:11-12 | and every session's UID is from 60000 to 65000 |
| `UidLock.UidsNotInPasswd` | plugins/terminal/node-terminal/src/identity.c:33-53 | and none has the UID of someone else's passwd line whose password field is not empty |
| `UidLock.CollisionIsHidden` | plugins/terminal/node-terminal/src/identity.c:33-53 | a session shares its UID with another's passwd line only if that line's name or password field is empty and the field read in its stead is none or another number |
| `UidLock.ReadExactly` | plugins/terminal/node-terminal/src/identity.c:39-53 | a line with a UID by position is read as having it when neither its name nor its password is empty; otherwise the number is taken from as many non-empty fields further on as those are empty |
| `UidLock.SeenExactly` | plugins/terminal/node-terminal/src/identity.c:39-53 | for an ordinary line: exactly when it has a password field or its GID is the same number |
| `UidLock.EmptyPassword` | plugins/terminal/node-terminal/src/identity.c:39-41 | with an empty password field the scan takes the GID for the UID |
| `UidLock.HiddenUidGiven` | plugins/terminal/node-terminal/src/identity.c:73-97 | a run in which a session is then given a UID that passwd already has |
| `UidLock.EntryUid` | plugins/terminal/node-terminal/src/identity.c:155-156 | the entry a session writes is read by the scan as its UID |
| `Controller.StepKeepsInv` | plugins/openshift-synchronizer/controller.go:138-252 | every step keeps: a name's worker knows what the cache says unless the name will be looked at again, and the queue holds exactly the dirty names not in process |
| `Controller.QuietIsMirrored` | plugins/openshift-synchronizer/controller.go:180-252 | in every reachable state a name that is not queued, delayed, in process or about to be handled has its Project exactly when the Namespace exists, with equal phase |
| `Controller.WorkerEnds` | plugins/openshift-synchronizer/controller.go:180-252 | a worker whose calls all succeed is done after at most four moves, and the Project is then what the cache says |
| `Controller.Converges` | plugins/openshift-synchronizer/controller.go:138-252 | from any reachable state, once nothing changes and no call fails, only a bounded number of steps can be taken, whichever they are, and at the end the Projects are the Namespaces with their phases |
| `Controller.FirstInFirstOut` | plugins/openshift-synchronizer/controller.go:115-153 | the queue gives out names in the order in which they were put in |
| `Controller.MoveOk` | plugins/openshift-synchronizer/controller.go:192-252 | each API call, failing with or without effect, keeps what is known of the name |
| `Pool.StepKeepsInv` | plugins/filesystem/internal/agent/pool.go:103-163 | every step of callers and goroutines keeps the invariant |
| `Pool.InflightIsHandles` | plugins/filesystem/internal/agent/pool.go:114-163 | `inflight` is the number of handles acquired and not released |
| `Pool.ReaperTakesUnheld` | plugins/filesystem/internal/agent/pool.go:324-349 | the reaper only takes helpers that nobody holds |
| `Pool.NoProcessLost` | plugins/filesystem/internal/agent/pool.go:237-253 | a running helper is in the table, owned by an `Acquire` that is inserting it, or about to be killed |
| `Pool.CondemnedLeaves` | plugins/filesystem/internal/agent/pool.go:237-253 | a helper that is dropped, reaped or noticed to have ended is marked dead and out of the table at once, and in the first two cases will be killed |
| `Pool.CloseEmpties` | plugins/filesystem/internal/agent/pool.go:353-370 | closing empties the table and leaves every helper in it to be killed |
| `Pool.StoppedHandsOut` | plugins/filesystem/internal/agent/pool.go:103-148 | after that only a call already under way hands out a helper |
| `Pool.KilledStops` | plugins/filesystem/internal/agent/pool.go:308-320 | a helper that was to be killed no longer runs once its turn has come |
| `Pool.HandedOutDead` | plugins/filesystem/internal/agent/pool.go:114-148 | the helper that a step hands out is dead exactly when the step joins or inserts one that was dead already; the fast path never does |
| `Pool.DeadExactly` | plugins/filesystem/internal/agent/pool.go:132-148 | over every run: exactly when it was dropped, reaped or noticed to have ended at an earlier step, while the call was about to join it or had not inserted it yet |
| `Pool.DeadHelperHandedOut` | plugins/filesystem/internal/agent/pool.go:135-143 | a run in which the unlocked window hands out a dead helper |
| `Pool.StillbornHandedOut` | plugins/filesystem/internal/agent/pool.go:144-148 | a run in which a helper that ended before it was inserted is handed out dead and stays in the table |
| `Cache.OneTaskPerKey` | plugins/external-dns/api/cache.go:92-106 | `refreshing` is the set of keys with a background task, and each has one |
| `Cache.ServedIsYoung` | plugins/external-dns/api/cache.go:114-155 | everything served from the cache was returned by a resolve for that key, and when it was checked less time had passed since that resolve returned than its own TTL, hence than 30 minutes |
| `Cache.CheckExactly` | plugins/external-dns/api/cache.go:120-133 | an entry younger than half its TTL is served, from then on served and refreshed, from its TTL on fetched again first |
| `Cache.FreshIsServed` | plugins/external-dns/api/cache.go:120-133 | a look-up that finds an entry younger than its TTL is served it without resolving |
| `Cache.MissResolves` | plugins/external-dns/api/cache.go:120-133 | a look-up that finds none resolves |
| `Cache.RefreshBegins` | plugins/external-dns/api/cache.go:82-90 | a call that begins a refresh leaves the key with a background task, its own or the one under way |
| `Cache.RefreshOnlyHalfOld` | plugins/external-dns/api/cache.go:120-133 | over every run a refresh is only begun for an entry served half its TTL old |
| `Cache.StoredAsResolved` | plugins/external-dns/api/cache.go:20-34 | what a resolve returned is stored as of that moment with the TTL reported, if it is from half a minute to half an hour, else the nearer of these, and with five minutes if none was |

## Left out

- Punycode.PunycodeRoundTrip: holds for code points up to 0x10FFFF and inputs short enough that every delta stays below 2^31 (0x110000 times the length plus one), which is far beyond any DNS label; JavaScript numbers above 2^53 are not modelled.
- RoundTrip.ArchiveRoundTrip: file modes, owners and timestamps are not part of a node. For a whole tree the condition on the destination is sufficient and not necessary, since a cleaned destination that leads elsewhere does no harm where directories of the same names happen to exist; the exact condition is given for each file and link at the moment it is written (`Destination.ItemExactly`).
- Destination.ItemExactly: takes members whose way below the destination passes no link; for the others see `Confinement.ItemLands`.
- Confinement.ExtractConfined: is sufficient for an archive and not necessary, since a link that the archive makes may lead back inside. When overwriting, both spellings of the destination must lead there without the help of anything inside it, which `Escapes.SkewEscapes` shows to be needed. Timestamps are not part of a node.
- Archive.WriteTar: the byte cap on the tar stream is left out, since it counts bytes of the tar format; so are the tar, zip, gzip and zstd formats themselves, and zip extraction, which treats members like the tar loop does.
- Extract.ExtractTar: a budget that reaches exactly zero is read as no limit, as in the code (`Outcomes.LimitsExactly`); `Chtimes` and file modes are left out.
- RootFs.Resolve: only the sandbox root; the native root hands the path to the kernel. The filesystem does not change during a resolution.
- Extract.SafeNameExact: Go's `path.Clean` is modelled on components.
- Hints.ParseHints: lower-casing is that of ASCII letters, which are the only ones a format name has.
- Ansi.ApplyParams: a 24-bit colour is kept as its three numbers, not as the `#rrggbb` string made of them.
- Geometry.IndexAt: heights and offsets are reals, without the rounding of floating point.
- DnsResponse.ParseResponse: an address is kept as its bytes; its textual form, the query builder's random identifier, and the UDP and TCP transport are left out.
- Pipeline.Session.Run: the UID lock file, the lock files beside the account files and the directory for published binaries stay behind, as in the code; owners are not modelled; undo rewrites, unmounts and unlinks are taken to succeed; killing processes, claiming the terminal and entering namespaces are steps that succeed or fail; the groups to inherit are any list of names.
- Pipeline.Session.AllocUid: takes any UID that no passwd line takes, of which the scan finds the least (`Uids.FindFreeUid`).
- HostFiles.EditUndone: lines hold no NUL characters.
- UidLock.UidsDistinct: nobody but sessions writes the passwd file meanwhile.
- Controller.QuietIsMirrored: an API call takes effect when it is made or not at all; shutting down, rate limits and the node queue are left out.
- Pool.InflightIsHandles: every handle is released once, as callers must; `MaxHelpers` is not a hard bound in the code and is left out, as is what holds after `Close`.
- Cache.ServedIsYoung: the clock is read as the resolve returns, in one step with it; calls that skip the cache are left out.
- LogBuffers.LogBuffer.Append: array elements are unbounded integers instead of 32-bit ones.
- HTTP handlers, manifests, credentials, Kubernetes clients, access reviews, TLS probing, React rendering and everything that rests on `Intl` or `Date`.
- The viewer's cache of parsed rows, level words, duration formatting, certificate families and mode strings.
