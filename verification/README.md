# Serein: verified models of the torrc reader and of the ISO remaster pipeline

This project models two parts of the Serein repository in Dafny and proves what they are for.

**The torrc interpreter** (`src/serein/veil/tor.py`). Tor's configuration is read by expanding
`%include` lines (plain paths, directories, wildcards) into one flat stream of lines, under a depth
cap, an ancestor set and a root guard, and then by evaluating that stream as an ordered program of
set, append and clear commands. The methods of `Torrc` and `TorrcEval` are the loops of the source;
`TorrcReading` and `TorrcSyntax` say what the lines mean as they are written. The theorems say that the expansion is textual inlining (`TorrcInlining`) and exactly when it raises
(`TorrcLoops`), that evaluating the flat stream is executing the include tree (`TorrcEval`), that it
depends on nothing but the answers about the paths it asks about (`TorrcConfinement`) and exactly when
the outside of the root can influence those answers and the lines (`TorrcLinks`, `TorrcOutside`,
`TorrcExact`), how large it can get (`TorrcSize`), and where its limits are (`TorrcLimits`,
`TorrcDetour`).

**The ISO remaster pipeline** (`src/serein/distribution/`). A base ISO is extracted, overlaid, given
a payload and rebuilt; the same tree is then rewritten in place into a QA form and rebuilt again.
`ExtractedTree` is the mutable tree, in which several paths may lead to one file; `Catalog`,
`Grub`, `GrubSyntax`, `GrubInstall`, `GrubPlain`, `GrubScan`, `GrubPatch`, `GrubLimits`, `QaTransition`,
`QaWritten` and `CatalogBytes` are the in-place QA rewrite; `Resources`, `Payload`, `PayloadRules`, `Inspect`,
`InspectRules` and `BuildAgreement` are what the build writes and what the inspector reads; `Shlex`, `Rebuild` and
`ReportWords` are the boot flags and the rebuild command; `RunBuild` is the whole run, in which every external step
is an oracle that may fail, `RunSteps` says how far a run gets, and `RunHistory` and `BuildGuarantees` are what all
runs keep; `StageStatus`, `Evidence` and `LayerB` carry a run's marker to the closure gate; `BootLog`, `BootVerdict`,
`TailWindow`, `Utf8` and `Smoke` are the QEMU boot smoke run; `Scratch` is the repair of a scratch tree before it is
deleted. `Text`, `Listing` and `Json` are shared vocabulary.

Every method that changes state or runs a loop is specified by a function of its inputs and the old
state, and the theorems are about that function. `dafny verify dfyconfig.toml` checks the project.

## Where the code and its documentation part

The model follows the code.

- The comment at `src/serein/veil/tor.py:91-95` says only `*` and `?` are wildcards. They decide whether an argument
  is a wildcard, but the match is `fnmatch`, which also reads `[...]`; the matcher is a given function here.
- `%include /*.conf` is looked up in the directory of the including file, not in the root directory
  (`TorrcLimits.AbsoluteWildcardDirectory`).
- A path that leaves the root and comes back through a link outside it does change the effective lines
  (`TorrcDetour.OutsideLinkChangesLines`); the root guard of `src/serein/veil/tor.py:104-116` looks at where a path
  ends, not at how it gets there.
- The same guard catches `OSError` only. On a link loop `Path.resolve` of Python 3.12 raises `RuntimeError`, which
  aborts the whole reading, wherever the loop is and however harmless (`TorrcLoops.RaisesExactly`). Python 3.13
  does not raise; that is the model in which `resolve` never answers `Loop`. The loop is found by `stat` of
  what `realpath` gives up with, so a loop with `..` behind it may go unreported; then nothing is read.
- `config_present` asks `is_file` before any root guard, so it is the one field that is not confined
  (`TorrcLimits.ConfigPresentLeaks`, with the exact condition in `ConfigPresentConfined`).
- Forcing the QA entry to be the default (`src/serein/distribution/qa_boot.py:283-293`) leaves a second
  `set default=` line when the white space between `linux` and its path is a line end and the
  path line reads `set default=` (`GrubLimits.SecondDefault`, exact condition in `GrubInstall.ExactlyOneDefault`).
- Blanking a `set default=` or `set timeout=` line that carries a menu header hands the rest of that entry over to
  the entry before it, which the autoinstall scan may then report (`GrubLimits.BlankedHeaderAddsFinding`, exact
  condition in `GrubPatch.PatchAddsNoFindingsExactly`).
- The refusal of an `autoinstall` entry looks at the rewritten kernel arguments only
  (`src/serein/distribution/qa_boot.py:264-268`); the initrd line and the paths are free.
- The checksum updater strips leading dots and slashes as characters, so it takes a line about a hidden file
  for a line about the file without the dot (`QaTransition.HiddenFileIsMistaken`).
- The updater decodes the catalog leniently and cuts it at every Unicode line end, so a rewrite changes lines
  about other files if their names are not UTF-8 or hold, say, a form feed (`CatalogBytes.IllegibleLineIsLost`).
- "Cleanly blocked" (`src/serein/distribution/build.py:400`) means that no QA rebuild was started, not that the
  tree is as before: a catalog that links out of the root is noticed only after the GRUB configuration was
  rewritten (`QaTransition.BlockedIsClean`).
- Stripping control sequences is not idempotent (`BootLog.StripIsNotIdempotent`), and the legacy markers are
  matched on the raw log (`BootLog.LegacyLayerIsRaw`).
- The stage marker is not cleared when a run starts. The theorems about runs start without one.
- Where evidence is assembled without a marker file, the command-line flags alone decide the three stages, so
  `LayerB.ClosureMeansCompleted` asks for the marker (`LayerB.FlagsAloneClose`).

## Model

| member | source | states |
|---|---|---|
| Torrc.ResolveLines | src/serein/veil/tor.py:148-178 | the lines of any path, from any depth and ancestor set, equal the expansion of the items one level of reading produces, or it raises because a root guard on the way meets a link loop; it ends on every file system, cyclic ones included |
| Torrc.ResolveText | src/serein/veil/tor.py:162-177 | the loop over a file's lines expands them in order, splicing each include where it stands, up to the first that raises |
| Torrc.ResolveRawLine | src/serein/veil/tor.py:163-176 | a blank or `#` line gives nothing, an `%include` line the expansion of its target, any other line itself, stripped |
| Torrc.ResolveInclude | src/serein/veil/tor.py:181-211 | a plain argument reads one path; a wildcard reads the sorted matching names of one directory, nothing if that directory is outside the root or cannot be listed, and raises if it is a link loop |
| Torrc.ResolveEach | src/serein/veil/tor.py:155-160 | a directory or a wildcard reads its names one after the other, and the results are concatenated in that order, or the first exception is passed on |
| Torrc.EffectiveTorrcLines | src/serein/veil/tor.py:214-222 | the lines of `etc/tor/torrc`, none if it is not a file, or the exception |
| TorrcReading.LineSyntax | src/serein/veil/tor.py:163-176 | every line of a file, told by the text between its white space: nothing or a comment is skipped, `%include` in any case with one argument is followed, anything else is kept as it stands |
| TorrcReading.WildcardSyntax | src/serein/veil/tor.py:130-145 | an argument is a pattern if and only if its last segment holds a star or a question mark; what precedes the last slash is the directory, or the including one if there is no slash |
| TorrcReading.TargetSyntax | src/serein/veil/tor.py:119-127 | an argument with a leading slash leads below the root, any other below the including directory, along its segments without empty ones and single dots |
| TorrcReading.GuardMeaning | src/serein/veil/tor.py:104-116 | a path is inside if and only if it resolves to the root or below it, and the guard raises if and only if the root or, with a root that resolves, the path loops |
| TorrcReading.PlainFile | src/serein/veil/tor.py:162-178 | a file without includes gives its stripped lines without blank ones and comments |
| TorrcReading.IncludeIsSpliced | src/serein/veil/tor.py:162-211 | an include line stands for what the path it names reads as, between what the lines before and after it give |
| TorrcReading.DirectoryOrder | src/serein/veil/tor.py:155-160 | of two file names in a directory, everything the smaller one in code points contributes comes first |
| TorrcReading.WildcardOrder | src/serein/veil/tor.py:199-211 | of two matches of a wildcard, everything the smaller one in code points contributes comes first |
| Listing.SortNames | src/serein/veil/tor.py:155-158 | `sorted` of a set of names: the list of exactly those names in which each is smaller in code points than every later one, for any order in which the set is enumerated |
| Listing.ListedIsSorted | src/serein/veil/tor.py:155-158 | there is one such list of a set of names, and it is the sorted one |
| Listing.BeforeMeans | src/serein/veil/tor.py:155-158 | the order is that of code points: equal, a prefix, or smaller where the two first differ |
| TorrcInlining.InliningFinishes | src/serein/veil/tor.py:148-211 | unbounded textual inlining finishes within `n` levels if and only if no include or directory chain has more than `n` members |
| TorrcInlining.ExpansionIsInlining | src/serein/veil/tor.py:148-211 | if no chain from a path has more than 8 hops, the lines are exactly the textual inlining, duplicates included |
| TorrcLoops.RaisesExactly | src/serein/veil/tor.py:104-211 | from any depth and ancestor set, reading raises if and only if a trail of reads within the depth that is left, through no ancestor, leads to a guard that meets a link loop; one looping match of a wildcard is enough |
| TorrcLoops.ReadingIsInlining | src/serein/veil/tor.py:104-211 | with no chain of more than 8 hops: the exception if a loop is met within 8 hops, else exactly the unbounded inlining |
| TorrcInlining.SeenIsIrrelevant | src/serein/veil/tor.py:153-155 | in any inlining that finishes, the ancestor set removes nothing, from any depth |
| TorrcInlining.OnlyTheCapCuts | src/serein/veil/tor.py:89-153 | with chains of any bounded length the result is the inlining cut at the depth cap alone |
| TorrcLimits.DepthCapIsExact | src/serein/veil/tor.py:89-154 | on a chain of `k` hops the reader returns the inlining if and only if `k` is at most 8 |
| TorrcConfinement.Confinement | src/serein/veil/tor.py:104-211 | from any point of an expansion, two file systems that agree on the paths asked about give the same lines, or both raise |
| TorrcConfinement.EffectiveLinesAreConfined | src/serein/veil/tor.py:214-222 | the effective lines, and whether reading them raises, depend only on what the paths asked about resolve to inside the root and on which of them are link loops |
| TorrcLinks.LinesAreConfined | src/serein/veil/tor.py:104-222 | two file systems with the same files and links inside the root have the same effective lines, or both raise, if every path asked about that leaves the root ends outside it in both and is reported as a link loop in both or in neither |
| TorrcOutside.GivesUpIffEndless | src/serein/veil/tor.py:104-116 | note: the model of `resolve` answers every path: `realpath` gives up on a walk if and only if it does not end |
| TorrcExact.ConfinedExactlyIfStaying | src/serein/veil/tor.py:104-127 | path by path the condition is exact: a path looks the same in every file system that is the same inside, if and only if its resolution never leaves the root |
| TorrcExact.LinesConfinedExactly | src/serein/veil/tor.py:104-222 | all lines together: where the main file and the directory entries stay inside, the effective lines are the same whatever lies outside if and only if no path the reader guards leaves the root |
| TorrcDetour.OutsideLinkChangesLines | src/serein/veil/tor.py:104-222 | `%include /../l` in three file systems that are the same inside the root: without `/l` there is no line, with a link back there is one, and with a link to itself the reader raises |
| TorrcConfinement.OutsideNamesVanish | src/serein/veil/tor.py:155-160 | names that lead out of the root, and to no link loop, can be dropped from a sorted listing without changing what it reads |
| TorrcSize.SizeBound | src/serein/veil/tor.py:89-211 | with files and directories of at most `b` items, reading at depth `d` yields at most `b^(17-2d)` lines |
| TorrcEval.ParsedDirectives | src/serein/veil/tor.py:225-243 | the directives of the lines that parse, in order |
| TorrcSyntax.DirectiveSyntax | src/serein/veil/tor.py:85-234 | a line parses to an operation, a name and a value if and only if it spells them: no sign, `+` or `/`, a letter followed by letters and digits, and after white space the value, stripped; any other line parses to nothing |
| TorrcEval.EvaluateMultiValue | src/serein/veil/tor.py:246-271 | unknown if and only if the option is never mentioned, else whether some entry after its last `clear` enables it |
| TorrcEval.EvaluateScalar | src/serein/veil/tor.py:274-294 | only the last matching directive counts, and a `clear` there means unknown |
| TorrcSyntax.MultiValueOfLines | src/serein/veil/tor.py:225-271 | on the lines as they are written: a multi-value option is unknown if and only if no line is about it, and on if and only if some line sets or appends an enabling value and no later line clears it |
| TorrcSyntax.ScalarOfLines | src/serein/veil/tor.py:225-294 | on the lines as they are written: the last line about a scalar option decides, and clearing it gives nothing |
| TorrcEval.FlatteningPreservesMeaning | src/serein/veil/tor.py:148-243 | for every command interpreter, folding it over the flattened stream equals running the include tree as a program in which an include is a call, if chains have at most 8 hops and meet no link loop |
| TorrcEval.IncludeTreeMeansMultiValue | src/serein/veil/tor.py:246-271 | in particular the include tree and the flattened stream give every multi-value option the same meaning |
| TorrcEval.IncludeTreeMeansScalar | src/serein/veil/tor.py:274-294 | and every scalar option what its last matching directive says |
| TorrcEval.TorUsable | src/serein/veil/tor.py:424-474 | exactly when the verdict is usable, and exactly when it is unknown |
| TorrcEval.FinalClearDisables | src/serein/veil/tor.py:246-474 | a `/SocksPort` with no enabling entry after it makes the option false and usability not true, whatever the units and the listener show |
| TorrcEval.ParseTorConfig | src/serein/veil/tor.py:297-317 | every field of the configuration is the meaning of its option in the effective lines; it raises exactly when reading them does |
| TorrcSyntax.SocksPortOfLines | src/serein/veil/tor.py:225-317 | a configuration whose last lines about the SOCKS port clear it has the port off, one with an enabling line that no later line clears has it on |
| TorrcSyntax.SignedLines | src/serein/veil/tor.py:225-234 | every option is appended to by `+<name> <value>` and cleared by `/<name>` |
| TorrcSyntax.BridgeSyntax | src/serein/veil/tor.py:304-307 | a line counts as a bridge line if and only if it is any number of signs, the word bridge in any case, and a blank |
| TorrcLimits.AbsoluteWildcardDirectory | src/serein/veil/tor.py:119-145 | note: an absolute wildcard include is looked up below the root, except `/<pattern>`, which is looked up in the including file's directory |
| TorrcLimits.ConfigPresentConfined | src/serein/veil/tor.py:297-317 | `config_present` is confined if the main file is inside the root; otherwise exactly when the main file is a file in both or in neither; where reading raises there is no value |
| TorrcLimits.ConfigPresentLeaks | src/serein/veil/tor.py:297-303 | two file systems that differ only outside the root and that `config_present` tells apart |
| Shlex.ParseElToritoReport | src/serein/distribution/iso.py:25-53 | the concatenated tokens of the lines that are neither blank nor comments, the first line that does not tokenize, or the refusal of an empty result |
| Shlex.ReportRoundTrip | src/serein/distribution/iso.py:25-53 | rendering any token lists as quoted lines, with blank and comment lines between, and parsing gives back all tokens in order |
| ReportWords.WordsRoundTrip | src/serein/distribution/iso.py:45-46 | words in any spelling, bare, escaped, in single and in double quotes and mixed, with blanks around them, split into their values |
| ReportWords.UnfinishedIsRefused | src/serein/distribution/iso.py:45-48 | a line that ends inside quotes or in a backslash is refused |
| ReportWords.ReportMeaning | src/serein/distribution/iso.py:39-53 | the report is refused for its first line that is no list of words, or for having no token; blank lines and comments say nothing |
| Rebuild.FilterBuilderOwnedBootFlags | src/serein/distribution/iso.py:76-104 | the index loop computes the recursive filter, errors included |
| Rebuild.FilterMeaning | src/serein/distribution/iso.py:76-104 | the filter accepts a list with a result if and only if the list is made of kept tokens and adjacent (owned option, value) pairs and the result is those tokens in order |
| Rebuild.NothingOwnedIsKept | src/serein/distribution/iso.py:76-104 | no owned option is left in an accepted result |
| Rebuild.FilterDistributes | src/serein/distribution/iso.py:76-104 | filtering an accepted list followed by any list filters the two separately |
| Rebuild.RefusedIffOddTail | src/serein/distribution/iso.py:91-98 | a list is refused if and only if it ends in an odd number of owned options |
| ReportWords.CommandMeaning | src/serein/distribution/iso.py:107-142 | when the command is refused and why: no flags, an odd run of owned options at the end, nothing left; otherwise its arguments in full |
| Rebuild.OneEffectiveVolumeId | src/serein/distribution/iso.py:107-142 | a last-wins reader of the rebuild command finds exactly `volume_id`, if and only if the output path is not itself spelled like an owned option (or the tree is called like the volume) |
| Rebuild.UnfilteredReportWins | src/serein/distribution/iso.py:62-73 | replayed without the filter, the last volume ID of the report would be the effective one |
| Rebuild.ReportToCommand | src/serein/distribution/iso.py:25-142 | from a rendered report to the rebuild command: the tokens that are not owned are replayed unchanged and in order |
| BootLog.StripUndoesDecoration | src/serein/distribution/bootsmoke.py:60-91 | inserting complete control sequences anywhere into ESC-free text and stripping gives back the text |
| BootLog.StripIsNotIdempotent | src/serein/distribution/bootsmoke.py:86-91 | a text on which stripping twice differs from stripping once |
| BootLog.SearchMeaning | src/serein/distribution/bootsmoke.py:75-84 | the backtracking-free matcher finds a pattern if and only if some spelling of it occurs |
| BootVerdict.SequenceMeaning | src/serein/distribution/bootsmoke.py:60-91 | a control sequence is recognised if and only if a complete one is spelled, and what is removed is that sequence |
| BootVerdict.VerdictMeaning | src/serein/distribution/bootsmoke.py:183-221 | a log counts as a success if and only if some marker is in it or, without its control sequences, one of the three reached-target events with its unit and description |
| BootVerdict.MarkerEvidence | src/serein/distribution/bootsmoke.py:211-213 | the evidence of the first layer is the first marker in the caller's order that the log contains |
| BootVerdict.EventEvidence | src/serein/distribution/bootsmoke.py:215-221 | without a marker the evidence is the first of the three events that is reached anywhere, where it is first reached, with single blanks for its white space and its full stop if one follows |
| BootVerdict.DecoratedVerdict | src/serein/distribution/bootsmoke.py:183-221 | for decorated text that holds no marker the answer is that of the plain text to the events |
| BootLog.TargetVerdict | src/serein/distribution/bootsmoke.py:183-221 | the target-layer verdict and line of decorated text are those of the plain text, positive exactly when a reached-target event occurs in it |
| BootLog.LegacyLayerIsRaw | src/serein/distribution/bootsmoke.py:183-221 | note: around any escape character of any log, a marker is found exactly if it is found on one side, so a sequence inside a marker hides it |
| Utf8.RoundTrip | src/serein/distribution/qa_boot.py:176-178 | every text survives UTF-8 encoding and both kinds of decoding |
| TailWindow.DecodingKeepsText | src/serein/distribution/bootsmoke.py:264-272 | a window cut inside a multi-byte character still shows a text exactly when its bytes are there |
| TailWindow.TailsSeeWhatTheLogShows | src/serein/distribution/bootsmoke.py:120-272 | for a log that only grows, by at most 65536 - m + 1 bytes between reads, some tail shows a marker of m bytes if and only if the whole log at the last read does |
| TailWindow.ReplacementIsCut | src/serein/distribution/bootsmoke.py:264-272 | why a marker must not hold U+FFFD: a log that does not show it and whose tail does |
| TailWindow.GrowthBoundIsExact | src/serein/distribution/bootsmoke.py:120-272 | one byte more between two reads, and a marker can be missed by both |
| Smoke.Session.Terminate | src/serein/distribution/bootsmoke.py:275-289 | the exact calls: poll, then terminate, a bounded wait, and kill only if still alive |
| Smoke.Session.Monitor | src/serein/distribution/bootsmoke.py:337-373 | in every environment in which some iteration decides, the result is the decision of the first that does, and the calls made are exactly those of the iterations up to it |
| Smoke.Session.Run | src/serein/distribution/bootsmoke.py:337-378 | the same with the cleanup on every way out: result, and every read, poll, clock, sleep, terminate, wait and kill in order |
| Smoke.ProcessIsGone | src/serein/distribution/bootsmoke.py:275-378 | in every such run the process was seen exited or was both terminated and killed |
| Smoke.KillIsTheLastResort | src/serein/distribution/bootsmoke.py:275-289 | in every such run a terminate follows a poll that saw the process running, and a kill a terminate and a bounded wait that ran out |
| Smoke.LoopEnds | src/serein/distribution/bootsmoke.py:337-373 | if every sleep advances the clock by at least the poll interval, some iteration decides, within ceil(timeout / interval) + 1 iterations |
| Smoke.PassMeaning | src/serein/distribution/bootsmoke.py:337-373 | the result is a pass if and only if some read shows a marker and no earlier iteration saw exit or deadline; a marker wins ties |
| Smoke.EndMeaning | src/serein/distribution/bootsmoke.py:350-373 | an exit is reported with the code that was polled if and only if no read so far shows a marker and nothing ended the run before, and wins over the deadline; a timeout needs the process running and the deadline passed |
| Smoke.PollingFindsLegacyMarkers | src/serein/distribution/bootsmoke.py:264-373 | if the log grows slowly enough and shows a legacy marker by read `k`, the loop ends in a match by read `k` |
| Scratch.FileSystem.MakeRemovable | src/serein/distribution/inspect.py:149-195 | the walk changes the modes exactly as the top-down repair of the tree does |
| Scratch.ScratchTreeBecomesRemovable | src/serein/distribution/inspect.py:149-273 | on any owned tree with any modes: directories end owner-rwx, files owner-writable, only bits of real nodes are added, no symlink or target changes, and a recursive delete is not refused |
| Scratch.ModesAfterRepair | src/serein/distribution/inspect.py:149-195 | every mode afterwards: a directory has gained read, write and execute, a regular file the write bit alone, anything else nothing |
| Scratch.DeleteRefused | src/serein/distribution/inspect.py:262-273 | a recursive delete is refused if and only if some directory of the tree cannot be listed, or has entries and cannot be changed or entered; files and links never stop it |
| Scratch.UnreachableIsUntouched | src/serein/distribution/inspect.py:149-195 | note: below a directory that cannot be searched no mode is changed |
| Scratch.RepairIsNeeded | src/serein/distribution/inspect.py:149-195 | note: a tree that cannot be deleted as it stands and can after the walk |
| GrubSyntax.HeaderSyntax | src/serein/distribution/qa_boot.py:67 | a menu header is matched if and only if one is spelled: the word in any case, white space, a title between two quotes, and all up to the first brace |
| GrubSyntax.SplitMeaning | src/serein/distribution/qa_boot.py:253-258 | a configuration is cut at its leftmost header, and what follows it in the same way |
| GrubSyntax.DirectiveSyntax | src/serein/distribution/qa_boot.py:68-69 | a kernel or initrd line is matched if and only if it is spelled, with lead, keyword, gap, path and the rest of its line |
| GrubSyntax.FirstDirective | src/serein/distribution/qa_boot.py:260-261 | the directive of an entry is the one on the first of its lines that spells any |
| GrubSyntax.DeriveMeaning | src/serein/distribution/qa_boot.py:240-280 | the QA entry is made from the first entry with both lines; it is refused without entries, without such an entry, or with `autoinstall` in the rewritten arguments |
| Grub.QuietIsRemoved | src/serein/distribution/qa_boot.py:219-224 | the tokens of the rewritten arguments are the original tokens without every standalone `quiet` |
| Grub.SerialIsAdded | src/serein/distribution/qa_boot.py:227-237 | the serial token is inserted in front of the first `---`, or appended, and only if the text does not contain it |
| Grub.QaArgsTokens | src/serein/distribution/qa_boot.py:219-261 | the derived kernel arguments: source tokens minus `quiet`, the serial token where the first `---` begins, and all other tokens kept if and only if that `---` begins a word |
| Grub.DeriveQaMenuentry | src/serein/distribution/qa_boot.py:240-280 | a derived entry is built from well-formed linux and initrd lines, and its kernel arguments never carry `autoinstall` |
| GrubInstall.QaArgsStayGood | src/serein/distribution/qa_boot.py:219-261 | rewritten arguments stay on one line and set off from the path |
| GrubInstall.ExactlyOneDefault | src/serein/distribution/qa_boot.py:240-293 | the patched configuration has exactly one column-0 `set default=` line, if and only if neither derived directive puts its path on a line of its own reading `set default=` |
| GrubInstall.DirectiveRoundTrip | src/serein/distribution/qa_boot.py:68-72 | every directive, written out in the new entry, is matched as itself again |
| GrubLimits.SecondDefault | src/serein/distribution/qa_boot.py:68-293 | a whole configuration that derives and whose patched text has two column-0 `set default=` lines |
| GrubScan.ScanBootConfigForDefaultAutoinstall | src/serein/distribution/safety.py:37-77 | the findings in order: entries whose body mentions autoinstall under a title with no QA marker, or the whole text if there is no entry |
| GrubSyntax.ScanMeaning | src/serein/distribution/safety.py:37-77 | a text without entries is reported if and only if it mentions autoinstall; otherwise exactly the unmarked entries whose body does |
| GrubScan.SplitClosed | src/serein/distribution/safety.py:37-77 | a text whose headers stand on single lines is cut into menu entries line by line |
| GrubPlain.QaLineIsPlain | src/serein/distribution/qa_boot.py:219-268 | rewriting the arguments of a line brings no menu header into it |
| GrubPatch.FindingsByLine | src/serein/distribution/safety.py:37-77 | an entry is reported exactly if its title bears no QA marker and some line that belongs to it mentions autoinstall |
| GrubPatch.PatchAddsNoFindings | src/serein/distribution/qa_boot.py:240-293 | with headers on single lines and none on a blanked line, the scan of the patched configuration reports only findings of the original |
| GrubPatch.PatchAddsNoFindingsExactly | src/serein/distribution/qa_boot.py:283-293 | with headers on single lines the rewrite adds no finding if and only if every entry that takes over an autoinstall line, because the header before it was blanked, was reported already |
| GrubLimits.BlankedHeaderAddsFinding | src/serein/distribution/qa_boot.py:283-293 | a whole configuration with single-line headers on which the rewrite does add a finding |
| ExtractedTree.Tree.WriteBytes | src/serein/distribution/qa_boot.py:176-178 | a write is refused without the write bit, and otherwise changes one file's bytes and nothing else |
| ExtractedTree.Tree.WriteGuarded | src/serein/distribution/qa_boot.py:103-123 | the write happens whatever the write bit was, and the exact mode is restored whether or not it succeeds |
| ExtractedTree.PutReads | src/serein/distribution/qa_boot.py:103-123 | note: a write is seen through another path if and only if that path leads to the same file |
| Catalog.UpdateChecksumCatalogIfPresent | src/serein/distribution/qa_boot.py:296-329 | the new tree, whether the catalog was rewritten, and the two ways it can fail |
| Text.SplitLinesMeaning | src/serein/distribution/qa_boot.py:310 | the lines of a text are what stands between its line ends, a return and a newline together being one; an end as the last thing begins no new line |
| Catalog.RefersMeaning | src/serein/distribution/qa_boot.py:311-317 | a line is taken to be about a path if and only if it is a word, white space and, up to white space around it and dots and slashes before it, that path |
| Catalog.RewrittenCatalog | src/serein/distribution/qa_boot.py:307-329 | the catalog written out, encoded and read back is the rewritten list of lines |
| Catalog.NewLineReads | src/serein/distribution/qa_boot.py:318-321 | a line written for a path holds no line break and is read back as that digest and a path that names that file |
| QaTransition.ProtectedFileManifest | src/serein/distribution/qa_boot.py:137-153 | the digest of every listed file but the excluded ones, whatever the order of the walk, or nothing if one of them cannot be read |
| QaTransition.DiscoverGrubConfig | src/serein/distribution/qa_boot.py:206-216 | the first candidate that is a file |
| QaTransition.TransitionToQaInPlace | src/serein/distribution/qa_boot.py:156-195 | the new tree and the outcome, normal or one of the three kinds of exception, for every fault of the reads and of the two writes |
| QaWritten.ConfigIsFirst | src/serein/distribution/qa_boot.py:60-216 | the configuration is the first of the four paths, in their order, that is a file |
| QaWritten.NothingWrittenBefore | src/serein/distribution/qa_boot.py:156-178 | of six obstacles before the first write, the first that is in the way decides how the transition ends, with the tree as it was |
| QaWritten.NewlinesMeaning | src/serein/distribution/qa_boot.py:175 | reading the configuration turns each of the three line ends into one newline and changes nothing else |
| QaWritten.InstalledConfig | src/serein/distribution/qa_boot.py:156-178 | what a normal return has written, line by line: the two settings, the QA entry with the lead, path and rewritten arguments of the first original entry with both lines and that entry's initrd line, then every original line in its place, only the two kinds of settings blanked |
| QaWritten.FirstEntryIsQa | src/serein/distribution/qa_boot.py:240-293 | the first menu entry of that text has the QA title and, unless a header hides in it, boots with that kernel line |
| QaTransition.TransitionFrame | src/serein/distribution/qa_boot.py:156-195 | on every exit every file has its original mode, and only the bytes of the configuration and of the catalog have changed |
| QaTransition.DoneMeansPreserved | src/serein/distribution/qa_boot.py:169-195 | after a normal return every listed path but the configuration and `md5sum.txt` reads the bytes it read before (SHA-256 injective) |
| QaTransition.UntouchedFile | src/serein/distribution/qa_boot.py:169-195 | the same for a file under any path that does not resolve to the configuration or to `md5sum.txt` |
| QaTransition.ConfigChanges | src/serein/distribution/qa_boot.py:169-178 | a normal return has always changed the bytes of the configuration, even where the catalog is a second name of it |
| QaTransition.MutationMeansAlias | src/serein/distribution/qa_boot.py:183-189 | a mutation error names only paths that alias the configuration or the catalog, with changed digests, after the write |
| QaTransition.NoAliasNoMutation | src/serein/distribution/qa_boot.py:183-189 | without aliases the mutation error is unreachable |
| QaTransition.BlockedIsClean | src/serein/distribution/qa_boot.py:89-182 | a blocked transition leaves the tree as it was, except that a catalog escaping the root is noticed after the configuration was rewritten |
| QaTransition.CatalogLinesAfter | src/serein/distribution/qa_boot.py:296-329 | line by line, as the updater reads them: an entry for the configuration holds the digest of its new bytes, every other line keeps its text and place |
| QaTransition.CatalogStaysTrue | src/serein/distribution/qa_boot.py:178-329 | every honest line, as the updater reads it, that matched its file matches after the transition, and so does every line for the configuration |
| CatalogBytes.ByteLinesAfter | src/serein/distribution/qa_boot.py:296-329 | the catalog as bytes, cut at newlines: if every line is UTF-8 without other line ends, the lines about the configuration hold its new digest and every other line is byte for byte what and where it was |
| CatalogBytes.ByteLinesStayTrue | src/serein/distribution/qa_boot.py:296-329 | so for `md5sum -c` every honest line that was true stays true, and every line about the configuration becomes true |
| CatalogBytes.IllegibleLineIsLost | src/serein/distribution/qa_boot.py:296-329 | the condition is needed: after a rewrite no line that is not UTF-8, or holds another line end, is left in the catalog |
| QaTransition.HiddenFileIsMistaken | src/serein/distribution/qa_boot.py:312-317 | a correct line about the hidden file `.<path>` is taken for a line about `<path>` |
| Resources.CollectResourceEntries | src/serein/distribution/payload.py:105-149 | one entry, with digest and size, for exactly the files of the given roots that are not excluded and do not leave the repository, in the order of the walk |
| PayloadRules.KeptFiles | src/serein/distribution/payload.py:92-138 | a file becomes payload if and only if no segment of its path is one of the fourteen excluded names, its name does not end in one of the three excluded suffixes, and it is reached without leaving the repository |
| Payload.PlanOverlay | src/serein/distribution/overlay.py:40-63 | the first overlay source outside the allowlist, if there is one |
| PayloadRules.AllowedTops | src/serein/distribution/overlay.py:23-62 | an overlay path is allowed if and only if it is `.disk` or `serein` or lies below one of them |
| PayloadRules.RefusedPath | src/serein/distribution/overlay.py:51-61 | the path an overlay is refused for is that of its first file outside |
| Payload.ApplyOverlay | src/serein/distribution/overlay.py:66-90 | a source outside the allowlist leaves the tree untouched; otherwise the files are written in order up to the first that cannot be |
| Payload.CopyPayloadIntoTree | src/serein/distribution/build.py:210-253 | every artifact's bytes, then the manifest, then the media marker, in that order, up to the first that cannot be written |
| Payload.SortedEntries | src/serein/distribution/build.py:223-227 | the manifest has exactly the entries of the artifacts, as many as there are |
| Payload.EntriesAscend | src/serein/distribution/build.py:223-227 | and lists them by ascending path in code points, whatever order the artifacts came in |
| Payload.SortIsStable | src/serein/distribution/build.py:223-227 | entries of one path keep the order of their artifacts |
| PayloadRules.PayloadPlaces | src/serein/distribution/build.py:210-253 | what is written, in order: every resource below `serein/payload/` under its own path, the wheel below `serein/payload/packages/`, the manifest and the marker at their two paths |
| PayloadRules.ManifestDocument | src/serein/distribution/models.py:111-119 | the manifest has exactly six fields, and each entry exactly the path, digest and size of its file |
| PayloadRules.MarkerDocument | src/serein/distribution/build.py:240-248 | the marker has exactly seven fields, among them the commit and what the base image is |
| PayloadRules.ModeAfterWrite | src/serein/distribution/overlay.py:80-90 | a copied file has the bytes and the mode of its source; a document that replaces a file keeps that file's mode |
| PayloadRules.ManifestCounts | src/serein/distribution/models.py:103-119 | the manifest reports the number of files and the bytes of all their sources together |
| InspectRules.MarkerMeaning | src/serein/distribution/inspect.py:407-448 | the marker check, finding by finding: missing, unparsable, or the first of six conditions on the document that is broken; a pass if and only if none is |
| InspectRules.EntryMeaning | src/serein/distribution/inspect.py:477-500 | one manifest entry, finding by finding: incomplete, not on disk, with another digest, a crash, or a pass |
| InspectRules.ManifestMeaning | src/serein/distribution/inspect.py:458-507 | the manifest check: commit and list first, then the first entry that does not pass, and only then the wheel |
| InspectRules.WheelSyntax | src/serein/distribution/inspect.py:485-487 | an entry is a wheel if and only if it lies below `packages/` and ends in `.whl` |
| Inspect.CheckPayloadManifestOf | src/serein/distribution/inspect.py:451-507 | the first failing condition in the order of the source, a pass, or the exception of a manifest that is not UTF-8 |
| Inspect.ManifestPassMeaning | src/serein/distribution/inspect.py:451-507 | the check passes if and only if the manifest is there and parses, its commit is the expected one, and every entry names a file of the tree and declares its digest, a wheel among them if required |
| BuildAgreement.TamperingIsDetected | src/serein/distribution/inspect.py:451-507 | when a tree passes, changing or removing any listed file under the same manifest makes it fail (SHA-256 injective) |
| Inspect.WriteFilesRead | src/serein/distribution/build.py:229-253 | files written to places that do not overlap are all there at the end, byte for byte |
| Inspect.WriteFilesKeep | src/serein/distribution/build.py:229-253 | a file none of the written paths leads to keeps its bytes |
| BuildAgreement.CollectedArtifacts | src/serein/distribution/payload.py:105-181 | the artifacts of the real walk: the collected entries, each describing the bytes of its source under a relative path, and a wheel below `packages/` last |
| BuildAgreement.BuildPassesInspection | src/serein/distribution/build.py:210-253 | the tree after any overlay and any non-overlapping resources and wheel passes the marker check and the manifest check, wheel required, for the same commit |
| BuildAgreement.PassesAfterQa | src/serein/distribution/inspect.py:407-507 | a tree that passes still passes after a successful QA transition, if no inspected path resolves to the configuration or to the catalog |
| BuildAgreement.ConfigEntryFails | src/serein/distribution/inspect.py:451-507 | and fails after every successful transition if an entry's path resolves to the configuration |
| BuildAgreement.InspectedArePayload | src/serein/distribution/inspect.py:451-507 | all that the inspection of a built tree reads is files of the payload |
| StageStatus.MarkerRoundTrip | src/serein/distribution/build.py:142-201 | a stage marker survives write and load unchanged if and only if its three stages have known values |
| StageStatus.LoadStatus | src/serein/distribution/build.py:181-201 | a loaded marker always has known stages, and an absent file is a marker with nothing performed |
| RunBuild.Builder.WriteStageStatus | src/serein/distribution/build.py:174-178 | one marker write: the file afterwards and the fault it raises |
| RunBuild.Builder.UnpackBase | src/serein/distribution/build.py:317-324 | extraction and report, with the boot flags or the exception, and the commands in the history |
| RunBuild.Builder.AssembleTree | src/serein/distribution/build.py:326-335 | overlay, wheel and payload on the extracted tree, or the first exception |
| RunBuild.Builder.RebuildImage | src/serein/distribution/build.py:337-349 | one rebuild of the tree as it stands and the record of its manifest, or the exception |
| RunBuild.Builder.ReleaseBase | src/serein/distribution/build.py:447-454 | the base image is gone and the history says so, only in an ephemeral build |
| RunBuild.Builder.BuildProduction | src/serein/distribution/build.py:317-349 | the production stage: its history, its tree and its flags or exception |
| RunBuild.Builder.BuildQa | src/serein/distribution/build.py:418-454 | the QA stage with its markers, and the release |
| RunBuild.Builder.TransitionAndBuildQa | src/serein/distribution/build.py:379-454 | the transition, with only the two exception classes caught that the source catches |
| RunBuild.Builder.RunBuild | src/serein/distribution/build.py:256-454 | one whole run equals the protocol, for every oracle |
| RunSteps.Refused | src/serein/distribution/build.py:291-312 | a run is refused, with nothing touched, if and only if the commit is empty or loading the contract, verifying the base image or resetting the workspace raises, and throws the first of these; so any event in a history means the base image was verified |
| RunSteps.RecordedIff | src/serein/distribution/build.py:291-435 | the production image is recorded if and only if every step it needs goes well, and the QA image if and only if the transition, the markers before it and the steps of its rebuild do too |
| RunSteps.FirstFailureIsThrown | src/serein/distribution/build.py:317-372 | the first step of production to raise decides what the run throws |
| RunSteps.RunReturns | src/serein/distribution/build.py:256-454 | when a run returns, and with which images or which reason for a blocked QA variant |
| RunSteps.CompleteHistory | src/serein/distribution/build.py:317-454 | the history of a run that goes well to its end, event by event |
| RunSteps.FailureIsNamed | src/serein/distribution/build.py:350-435 | the final marker names the stage that failed and the reason thrown or refused with, and names none when none failed |
| RunHistory.RunEnds | src/serein/distribution/build.py:256-454 | every run, whatever fails, ends with an orderly history, a marker that agrees with it, and the base image gone exactly if released |
| RunHistory.RebuildSound | src/serein/distribution/build.py:337-435 | a rebuild and its record only ever follow what they need |
| BuildGuarantees.ReleaseDiscipline | src/serein/distribution/build.py:317-454 | the base image is released if and only if the build is ephemeral and returns normally, and the release is the last event of the run, hence happens once and no command follows it |
| BuildGuarantees.MarkerIsTruthful | src/serein/distribution/build.py:348-445 | at every point of every run a readable marker reports only stages that have happened: QA build performed implies transition passed implies production passed |
| BuildGuarantees.NoPassRetracted | src/serein/distribution/build.py:348-445 | in every run, a pass the marker shows at one point is shown by every later readable marker |
| BuildGuarantees.MarkerTellsTheRun | src/serein/distribution/build.py:348-445 | if no marker write fails, each stage of the final marker is pass, fail or not performed exactly according to what happened and to the class of the exception |
| BuildGuarantees.QaMeansCompleted | src/serein/distribution/build.py:317-435 | a recorded QA image implies extraction, report, wheel, production rebuild and record, transition, QA rebuild and record, each before the next |
| BuildGuarantees.PassMeansCompleted | src/serein/distribution/build.py:317-445 | a marker with `qa_build=pass` is left only by such a run |
| BuildGuarantees.ImagesOf | src/serein/distribution/build.py:317-454 | a run that returns a QA image packed the production tree and the QA tree, both with the report's own boot flags |
| BuildGuarantees.BothImagesAgree | src/serein/distribution/build.py:317-454 | if no payload file's place resolves to the catalog or to the configuration to be patched: both packed trees pass inspection for the commit, read the same everywhere but in those two, and both commands set the one volume ID |
| BuildGuarantees.PayloadOnConfigFails | src/serein/distribution/build.py:317-454 | and if an artifact's place does resolve to that configuration, the QA image of every run that returns one fails the inspection |
| Evidence.EvidenceRoundTrip | src/serein/distribution/evidence.py:79-212 | evidence survives write and load unchanged if and only if it can be constructed |
| Evidence.SparseEvidence | src/serein/distribution/evidence.py:186-212 | a document with nothing but a commit loads as evidence that nothing was performed |
| Evidence.EnforceLayerBClosure | src/serein/distribution/closure.py:28-82 | the failures are exactly the unmet ones of the twelve conditions, each once and in order |
| Evidence.ClosesMeaning | src/serein/distribution/closure.py:28-82 | the twelve conditions of the gate, written out |
| LayerB.CmdEvidence | src/serein/distribution/__main__.py:157-228 | the bytes written, or nothing on every path that raises |
| LayerB.MergeDefined | src/serein/distribution/__main__.py:157-225 | evidence can be assembled if and only if every document that is there parses and is complete, the marker loads, and the six stages have known values |
| LayerB.MergedFields | src/serein/distribution/__main__.py:175-225 | the three stages come from the marker where there is one; the base is verified if and only if both hashes are given and equal |
| LayerB.MergedArtifacts | src/serein/distribution/__main__.py:175-225 | note: every other field comes from the one document it belongs to, and the failure from the flags only where the marker names none |
| LayerB.GateReadsWhatWasWritten | src/serein/distribution/__main__.py:226-242 | the gate on the written file decides as on the evidence itself |
| LayerB.ClosureMeansCompleted | src/serein/distribution/closure.py:28-82 | a closure pass on evidence merged from a run's marker implies that the whole pipeline completed in order in that run, that the base hashes were given and equal, and that the commit is the expected one |
| LayerB.GateAfterCompleteRun | src/serein/distribution/closure.py:28-82 | after a run whose marker shows three passes, closure is decided exactly by the remaining conditions |
| LayerB.GateWithoutMarker | src/serein/distribution/closure.py:28-82 | without a marker file, closure is decided exactly by the three stage flags and the remaining conditions |
| LayerB.FlagsAloneClose | src/serein/distribution/__main__.py:157-242 | why the theorem asks for the marker: a run refused before it begins leaves none, and with suitable arguments the gate passes all the same |

## Left out

- LayerB.ClosureMeansCompleted: speaks about a run that started without a marker file; a stale marker of an earlier run is outside it.
- Smoke.Session.Run: speaks about environments in which some iteration decides; in any other the loop of the source does not return.
- Smoke.PassMeaning: asks that the empty string is not among the markers; with it the source raises instead of passing, which the model's `NoEvidence` outcome records.
- GrubPatch.PatchAddsNoFindingsExactly: for configurations whose menu headers each stand on a single line.
- TorrcExact.LinesConfinedExactly: where the main file or a directory entry leaves the root only the sufficient `TorrcLinks.LinesAreConfined` speaks, since an entry that is no file is skipped without a guard.
- Torrc.ResolveLines: `is_dir`, `is_file` and `is_symlink` raise `PermissionError` below a directory that cannot be searched; here such a path is not there.
- Scratch.UnreachableIsUntouched: says that no mode changes; `is_symlink` may raise `PermissionError` there, which the source does not catch.
- TailWindow.TailsSeeWhatTheLogShows: for non-empty markers without U+FFFD, for which it is false (`ReplacementIsCut`).
- QaTransition.DoneMeansPreserved: assumes SHA-256 injective, as do the members that use it.
- BuildAgreement.PassesAfterQa: asks that no inspected path resolves to the catalog even where the catalog is not rewritten; for the GRUB configuration `ConfigEntryFails` is the other half.
- QaTransition.TransitionToQaInPlace: reading the catalog and the file whose digest goes into it is taken to succeed.
- Inspect.CheckPayloadManifestOf: an exception inside the check that the source does not turn into a finding is one outcome, `Crash`; `json.loads` is taken to refuse bytes that are not UTF-8.
- RunBuild.Builder.RunBuild: a step that raises is an oracle, and so is the debris it leaves in the tree.
- Subprocesses, xorriso, QEMU, systemctl and `dpkg-query`: oracles; their output is an arbitrary input.
- JSON text: documents are field maps behind a given pair of functions that is assumed faithful, `Json.Codec.Faithful`.
- `resolve_within`, and `Path.resolve` outside `TorrcLinks`: given functions from paths to canonical paths; case-insensitive file systems, races and the kernel's limit of 40 links in one path are not modelled.
- SHA-256 and MD5: given functions.
- The general regex engine: only the recognisers the source uses are modelled, each as a function.
- Files outside the extraction root that a link leads to: they can be read, but are taken not to change during a transition.
- `stat` and `chmod` on a tree the user owns are taken to succeed.
- The directory walk under a payload root, `sorted(rglob)`: a given listing with relative paths.
- `prepare_qa_variant`: the older copy-based route, with the same rewrite and a weaker claim.
- Elapsed time, log excerpts and the QEMU command line of the smoke result: presentation.
- The other `_check_*` functions of the inspector (sidecar, volume ID, UEFI, El Torito): single reads compared with a constant.
- Credential scanning, planners, capability tables, tool manifests, the profile registry and command-line rendering: data and presentation without an invariant behind them.
