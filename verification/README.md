# Verified models of the repository's algorithmic cores

A Dafny 4.11 project. `dafny verify dfyconfig.toml` checks all of it. Each group below is a model of
one part of the repository with proofs about it.

## What is modelled

**Configuration store** (`Uci*.dfy`). A package is an ordered list of sections with ordered options
that are strings or lists. Edits change the tree and append records; saving prints the records to a
journal, loading replays a journal over an imported file, reverting filters it, committing folds it
into the file. `UciTree` has the tree and its edits as functions, `UciPackage` the class whose methods
do them in place, `UciLists` the circular lists they are built on, with setting an option on such a
list tied to the tree. `UciTokens` has the scanner,
`UciLineBuffer` the same scanner working inside one buffer with a read and a write cursor. `UciFile`
and `UciParser` are the file parser, `UciJournal`, `UciReplay` and `UciRevert` the journal, `UciStore`
the store with its file and journal, `UciEdits` says what each edit means to a reader, `UciSpelling` how
an argument may be spelled, and `UciRoundTrip`, `UciImport`, `UciNormalForm`, `UciNul`, `UciRevertOthers`,
`UciCommit` and `UciClearNames` have the theorems across them.

**1-Wire search** (`OneWire*.dfy`, `DallasTemperature.dfy`). A bus is a set of 64-bit codes on an
open-drain wire, and devices drop out when the master writes the other bit. The search remembers one
code and one position and finds the devices in lexicographic order; the alarm search keeps its own
position in another form and is shown to take the same steps.

**Cyclic redundancy codes** (`ShiftRegister.dfy`, `Crc.dfy`, `Crc16.dfy`, `Crc32.dfy`). Table and
parity forms against the bit-serial definition, seeds, and what the 8-bit code detects.

**AES in CBC mode** (`Aes*.dfy`). The cipher and the equivalent inverse cipher with its key conversion,
down to the word-parallel doubling, chaining over any division into calls, and a whole exchange between
two contexts on bytes. The tables and the mixes are those of the standard's field arithmetic, and the
standard's published schedules and blocks are proved.

**Streaming MD5** (`Md5Block.dfy`, `Md5.dfy`). The unrolled compression against the standard's table of
steps, and a state whose meaning depends only on the concatenation of what was appended. The digest of the
empty message is proved to be the published one.

**Receive ring** (`SoftSerial.dfy`). Each access of the main program to the shared variables is a step,
and the interrupt may come between any two; the ring is shown to be a plain queue of 63 bytes.

**Archives and Base64** (`Lmo.dfy`, `Base64.dfy`).

Bytes are `bv8` and words `bv32` where the code works on bits; archives and Base64 use bounded
integers with the divisions and remainders the shifts stand for. C integer widths are written out
where they matter: the hash and the counts modulo 2 to the 32nd or 64th, depths and device counts
modulo 256, the unsigned comparison of a negative length.

Where the code and what one would expect of it disagree, the model follows the code, proves the exact
condition, and gives an input on the other side of it:

- a commit keeps what a reader sees: `UciCommit.CommitKeepsView`, `UciCommit.RenameCanMerge`
- an export reads back as the package: `UciCommit.NormalFormExactly`, `UciCommit.ReopenedIsRenamed`
- a saved edit replays as itself: `UciReplay.EditReplaysExactly`, `UciReplay.ThirdAdditionIsLost`
- a record reads back as itself: `UciJournal.ReadsBackExactly`, `UciJournal.DottedPackageMisread`,
  `UciJournal.DottedOptionRefused`
- a revert takes effect: `UciRevert.RevertReplays`, `UciRevert.RevertAll`, `UciRevert.DottedJournalStays`
- a revert restores: `UciRevert.RevertRestoresExactly`, `UciRevert.RevertRestoresAlways`, `UciRevert.RenameTakesName`,
  `UciRevert.OptionRevertRestoresExactly`, `UciRevert.DeletedSectionStaysDeleted`
- a revert leaves the rest: `UciRevertOthers.RevertLeavesOthers`, `UciRevertOthers.RenamedOptionIsLost`
- every device is found: `OneWireEnumeration.CompleteExactly`, `OneWireEnumeration.NothingFound`
- every valid device is reached: `DallasTemperatures.DallasTemperature.BeginAndSetResolution`,
  `DallasTemperatures.InvalidDeviceFirst`
- a decoded text is the text of its bytes: `Base64.ReencodesExactly`, `Base64.StrayBitsDecode`

## Model

| member | source | states |
|---|---|---|
| UciCommit.EditCommitReload | openwrt/package/luci/contrib/uci/uci-0.7.3/file.c:404-470 | Load, edit, save, commit, load again: the saved journal replays to the tree the session ended with; if anything was recorded or an earlier line applied, the commit empties the journal and the file alone says that tree up to generated names exactly when it is committable, and otherwise both files stay as they were |
| UciCommit.EditRevertReload | openwrt/package/luci/contrib/uci/uci-0.7.3/history.c:262-373 | Load, edit, save, revert any part, load again: if the journal that was loaded parses, the reader finds the replay of exactly its lines and the records of the session that are not selected, in their order; otherwise nothing is reverted and the reader finds the edited tree |
| UciCommit.CommitKeepsView | openwrt/package/luci/contrib/uci/uci-0.7.3/file.c:404-470 | For any file and journal that can be read: if some line applies when its turn comes the journal is empty afterwards and the file alone shows the same tree up to generated names exactly when it is committable; otherwise both files stay as they were |
| UciCommit.CommitThenLoad | openwrt/package/luci/contrib/uci/uci-0.7.3/file.c:404-470 | On the files themselves: a commit and the load after it return the tree a reader saw before, up to generated names, exactly when it was committable or no line applied; if one did, it is the file that says so and the journal is empty |
| UciClearNames.ClearSessionCommits | openwrt/package/luci/contrib/uci/uci-0.7.3/file.c:404-470 | For a package whose names are clear and edits that name clearly the commit guarantee has no further condition: load, edit, commit, load again gives the edited tree up to generated names, from the file alone and with an empty journal if anything was recorded |
| UciClearNames.EditKeepsClear | openwrt/package/luci/contrib/uci/uci-0.7.3/list.c:506-672 | The guard before an edit is exact: on a clearly named tree names stay clear (distinct options, distinct named sections, none of the generated form) if and only if the edit gives no taken name and no section a name of the generated form |
| UciClearNames.ClearIsCommittable | openwrt/package/luci/contrib/uci/uci-0.7.3/file.c:281-314 | Clear names are enough for a commit, whatever names the next reader generates |
| UciNul.RewrittenNulFree | openwrt/package/luci/contrib/uci/uci-0.7.3/file.c:404-470 | A file without NUL bytes, whatever the journal, is rewritten as such a file, so it can be read again |
| UciCommit.ExportKeepsView | openwrt/package/luci/contrib/uci/uci-0.7.3/file.c:281-314 | A valid tree is read back from its export up to generated names exactly when option names are distinct in every section and no named section has the name of an earlier one, generated names counted |
| UciCommit.RenameCanMerge | openwrt/package/luci/contrib/uci/uci-0.7.3/list.c:506-534 | A concrete rename the code accepts and a commit cannot keep: two sections end with one name |
| UciCommit.UniqueKept | openwrt/package/luci/contrib/uci/uci-0.7.3/list.c:552-672 | Every edit but a rename keeps option names distinct |
| UciCommit.RevertAllRestoresFile | openwrt/package/luci/contrib/uci/uci-0.7.3/history.c:328-373 | When every journal line parses, reverting the whole package shows the import of its file |
| UciCommit.ViewOk | openwrt/package/luci/contrib/uci/uci-0.7.3/file.c:535-578 | Whatever file and journal are read, names and types are valid and no list is empty |
| UciStore.Store.Load | openwrt/package/luci/contrib/uci/uci-0.7.3/file.c:535-578 | Loading gives the replay of the journal over the import of the file and touches neither |
| UciStore.Store.SavePackage | openwrt/package/luci/contrib/uci/uci-0.7.3/history.c:375-450 | Saving appends the printed records to the journal and drains them |
| UciStore.Store.Commit | openwrt/package/luci/contrib/uci/uci-0.7.3/file.c:404-470 | Commit saves and, if some line of the journal applies when its turn comes, writes the view into the file and empties the journal; otherwise, and when the file does not parse, the file is left alone; it stays one without NUL bytes |
| UciStore.CommitWrites | openwrt/package/luci/contrib/uci/uci-0.7.3/file.c:440-459 | When a commit writes the file: exactly when some journal line applies when its turn comes |
| UciStore.Store.Revert | openwrt/package/luci/contrib/uci/uci-0.7.3/history.c:328-373 | Revert saves, leaves the filtered journal and loads it over the file |
| UciStore.ExportPackage | openwrt/package/luci/contrib/uci/uci-0.7.3/file.c:281-314 | The loops over sections, options and list items print the text the round trips are about |
| UciReplay.SessionReplays | openwrt/package/luci/contrib/uci/uci-0.7.3/history.c:138-207 | For every session of edits whose generated names are unused, replaying the saved journal text over the loaded package rebuilds sections, order, types, anonymous flags, options and values, and every record counts as one change |
| UciReplay.AppliedExactly | openwrt/package/luci/contrib/uci/uci-0.7.3/history.c:175-207 | The count behind a commit is the number of lines that are not blank and apply over what the lines before them left |
| UciReplay.RecordedExactly | openwrt/package/luci/contrib/uci/uci-0.7.3/list.c:620-672 | A set of an option is recorded exactly when it changes the package; every other edit that is carried out is recorded once |
| UciReplay.OtherPackageSkipped | openwrt/package/luci/contrib/uci/uci-0.7.3/history.c:138-172 | A record of another package changes nothing |
| UciReplay.EditReplays | openwrt/package/luci/contrib/uci/uci-0.7.3/history.c:138-172 | One replayable edit and its printed record do the same to any equal tree, whatever the counter |
| UciReplay.EditReplaysExactly | openwrt/package/luci/contrib/uci/uci-0.7.3/list.c:506-672 | For one edit the condition is exact: the printed record reproduces it if and only if a rename gives a valid name and an added section has a valid type and an unused generated name |
| UciReplay.TakenNameUpdates | openwrt/package/luci/contrib/uci/uci-0.7.3/history.c:161-167 | Replaying an added section whose generated name is taken adds no section |
| UciReplay.ThirdAdditionIsLost | openwrt/package/luci/contrib/uci/uci-0.7.3/list.c:184-204 | Where the condition fails in ordinary use, for every valid type: two sections added to an empty package, saved and loaded leave the counter at two and not four, and the addition of a third is lost when it is saved and loaded |
| UciReplay.ReplayKeepsOk | openwrt/package/luci/contrib/uci/uci-0.7.3/history.c:175-207 | Any journal text, replayed over a valid tree, leaves valid names, valid types and nonempty lists |
| UciReplay.SessionKeepsOk | openwrt/package/luci/contrib/uci/uci-0.7.3/list.c:506-672 | Every session keeps names and types valid and lists nonempty |
| UciJournal.PrintParse | openwrt/package/luci/contrib/uci/uci-0.7.3/history.c:410-440 | A printed record is one nonempty line and parses to the record |
| UciJournal.RecordsInText | openwrt/package/luci/contrib/uci/uci-0.7.3/history.c:410-440 | The text of the four kinds of records about an option |
| UciJournal.SectionRecordsInText | openwrt/package/luci/contrib/uci/uci-0.7.3/history.c:410-440 | The text of the four kinds of records about a section |
| UciJournal.ReadsBackExactly | openwrt/package/luci/contrib/uci/uci-0.7.3/history.c:91-136 | A record of any command reads back as itself if and only if the package name is valid and has no dot and no equals sign, and, for a change, none of the four command characters in front |
| UciJournal.PlainPackageExact | openwrt/package/luci/contrib/uci/uci-0.7.3/history.c:91-136 | All records read back as themselves if and only if the package name is plain |
| UciJournal.DottedPackageMisread | openwrt/package/luci/contrib/uci/uci-0.7.3/util.c:131-187 | Where it fails: a record about a section of a package whose name has a dot reads back as one about an option of another package |
| UciJournal.DottedOptionRefused | openwrt/package/luci/contrib/uci/uci-0.7.3/util.c:131-187 | And where it fails outright: the record of an option of such a package has four parts and does not parse |
| UciJournal.Save | openwrt/package/luci/contrib/uci/uci-0.7.3/history.c:375-450 | Printing and draining the records of a package |
| UciJournal.ParseHistoryLine | openwrt/package/luci/contrib/uci/uci-0.7.3/history.c:138-172 | One journal line does to the package what the replay function says and records nothing; a line that does not apply changes nothing |
| UciJournal.ParseHistory | openwrt/package/luci/contrib/uci/uci-0.7.3/history.c:175-207 | The loop over the lines applies all of them and counts those that applied, which is the number of lines that apply when their turn comes |
| UciJournal.MarkSectionAnonymous | openwrt/package/luci/contrib/uci/uci-0.7.3/history.c:161-167 | A replayed add marks the section of its name anonymous |
| UciRevert.FilterKeepsRemaining | openwrt/package/luci/contrib/uci/uci-0.7.3/history.c:262-326 | Filtering a saved journal leaves exactly the records not selected, in order |
| UciRevert.RevertAll | openwrt/package/luci/contrib/uci/uci-0.7.3/history.c:262-326 | Filtering everything empties the journal exactly when every line parses; otherwise it stays as it was |
| UciRevert.RevertReplays | openwrt/package/luci/contrib/uci/uci-0.7.3/history.c:262-326 | For any journal text: after a revert a reader sees the replay of exactly the lines not selected when every line parses, and of all of them when one does not |
| UciRevert.UnselectedExactly | openwrt/package/luci/contrib/uci/uci-0.7.3/history.c:281-307 | What a revert leaves, line by line and in order: exactly the lines that are not blank and do not parse or name another section or another option than the ones given |
| UciRevert.RemainingExactly | openwrt/package/luci/contrib/uci/uci-0.7.3/history.c:281-307 | The same of the records of a session |
| UciRevert.FilterExactly | openwrt/package/luci/contrib/uci/uci-0.7.3/history.c:262-326 | The journal after a revert is the text of exactly the lines left if all of it parses, and unchanged otherwise |
| UciRevertOthers.RevertLeavesOthers | openwrt/package/luci/contrib/uci/uci-0.7.3/history.c:328-373 | Reverting one option leaves every other: if no line renames or deletes its section or renames one of its options, a reader finds all other options and sections as before |
| UciRevertOthers.RenamedOptionIsLost | openwrt/package/luci/contrib/uci/uci-0.7.3/history.c:328-373 | Where it fails: the rename of the option is a record about it, and its revert takes the value from the new name |
| UciRevertOthers.RevertLeavesOtherSections | openwrt/package/luci/contrib/uci/uci-0.7.3/history.c:328-373 | Reverting a section leaves all others, in their order, if no line renames it |
| UciRevert.DottedJournalStays | openwrt/package/luci/contrib/uci/uci-0.7.3/history.c:262-326 | When a saved journal does not parse: that of a package whose name has a dot parses exactly while it holds no record about an option, and with one every revert leaves it as it was |
| UciRevert.SavedRevertReplays | openwrt/package/luci/contrib/uci/uci-0.7.3/history.c:328-373 | The lines of a saved journal all parse, and what is replayed after a revert is the records not selected, in order |
| UciRevert.RevertShows | openwrt/package/luci/contrib/uci/uci-0.7.3/history.c:328-373 | Looking up a reverted section finds the section that last took its name, by a remaining rename of a section standing before it, or else what the file holds |
| UciRevert.RevertRestoresExactly | openwrt/package/luci/contrib/uci/uci-0.7.3/history.c:328-373 | A reverted section is what the file holds if and only if no remaining rename takes its name by position, or the last that does brings an equal section |
| UciRevert.RevertRestoresAlways | openwrt/package/luci/contrib/uci/uci-0.7.3/history.c:328-373 | The condition on the lines alone, exact over all well-formed trees: the section is restored over every one if and only if no line left renames a section to its name |
| UciRevert.RevertRemovesExactly | openwrt/package/luci/contrib/uci/uci-0.7.3/history.c:328-373 | A section the file lacks is gone after its revert if and only if no remaining rename to its name applies |
| UciRevert.RenameTakesName | openwrt/package/luci/contrib/uci/uci-0.7.3/history.c:328-373 | Inputs for both sides: a rename in front of the reverted section or in its absence takes the name, the same rename behind it does not |
| UciRevert.OptionRevertShows | openwrt/package/luci/contrib/uci/uci-0.7.3/history.c:328-373 | Looking up a reverted option finds its value of the file, unless its section was deleted, renamed or had its name taken or another option took its name; then what the last of these left |
| UciRevert.OptionRevertRestoresExactly | openwrt/package/luci/contrib/uci/uci-0.7.3/history.c:328-373 | A reverted option has its value of the file if and only if none of these happened or the last left an equal value |
| UciRevert.OptionRevertRestores | openwrt/package/luci/contrib/uci/uci-0.7.3/history.c:328-373 | The condition on the lines alone: the option is restored over any tree when no line left gives the name of its section or of itself to another, or deletes or renames the section |
| UciRevert.DeletedSectionStaysDeleted | openwrt/package/luci/contrib/uci/uci-0.7.3/history.c:328-373 | An input where it does not: the deletion of the section outlives the revert of its option |
| UciRevert.FilterHistory | openwrt/package/luci/contrib/uci/uci-0.7.3/history.c:262-326 | The filter loop writes the kept lines, or the whole journal when a line does not parse |
| UciRevert.CollectKept | openwrt/package/luci/contrib/uci/uci-0.7.3/history.c:281-307 | The loop keeps a line unless its section and option are selected and stops at the first that does not parse |
| UciImport.ImportExport | openwrt/package/luci/contrib/uci/uci-0.7.3/file.c:281-390 | Importing the text of an export rebuilds every section and option in order; one-element lists stay lists and only anonymous sections get new names |
| UciImport.ImportExportExactly | openwrt/package/luci/contrib/uci/uci-0.7.3/file.c:281-390 | Importing the export of any tree gives the renumbered tree if and only if names, types and values are valid, lists nonempty, option names distinct and no named section has an earlier name |
| UciImport.ImportOk | openwrt/package/luci/contrib/uci/uci-0.7.3/file.c:82-229 | Every imported package has valid names and types, unique option names, nonempty lists, values of one line, and no named section with an earlier name |
| UciRoundTrip.ImportTreeLines | openwrt/package/luci/contrib/uci/uci-0.7.3/file.c:182-229 | The parser run over the printed lines of a tree ends in the tree with renumbered sections |
| UciRoundTrip.ImportSection | openwrt/package/luci/contrib/uci/uci-0.7.3/file.c:102-177 | The printed lines of one section open it and fill in its options |
| UciRoundTrip.IgnoredLine | openwrt/package/luci/contrib/uci/uci-0.7.3/file.c:182-229 | Blank lines and comments between other lines change nothing |
| UciRoundTrip.ThreeArgumentsRefused | openwrt/package/luci/contrib/uci/uci-0.7.3/file.c:102-142 | A section line with a third argument is refused |
| UciRoundTrip.ThirdHeaderRefused | openwrt/package/luci/contrib/uci/uci-0.7.3/file.c:102-177 | A section may be opened twice in a file; after its third line an option is refused |
| UciFile.LinesInText | openwrt/package/luci/contrib/uci/uci-0.7.3/file.c:237-276 | The text of section, option and list lines |
| UciFile.EscapeInText | openwrt/package/luci/contrib/uci/uci-0.7.3/file.c:237-276 | The text of an escaped quote |
| UciFile.CommandWords | openwrt/package/luci/contrib/uci/uci-0.7.3/file.c:198-224 | Every command has a short and a long word, and any other word is refused |
| UciNormalForm.ExportIsNormalForm | openwrt/package/luci/contrib/uci/uci-0.7.3/list.c:153-209 | For every plain text that imports, importing its export gives the same package, generated names and counter included |
| UciCommit.NormalFormExactly | openwrt/package/luci/contrib/uci/uci-0.7.3/list.c:153-209 | For any text that imports, importing the export reproduces the package if and only if its names and counter are those the sections get by place and content |
| UciCommit.ReopenedIsRenamed | openwrt/package/luci/contrib/uci/uci-0.7.3/list.c:153-209 | Where it fails: a text that reopens a section by its generated name and adds an option; the hash changes, and the export is read back under another name |
| UciNormalForm.ImportNamesDistinct | openwrt/package/luci/contrib/uci/uci-0.7.3/list.c:153-186 | In any text that imports, anonymous sections get distinct names, whatever the text calls its other sections and whichever it reopens |
| UciNormalForm.ImportIsNormal | openwrt/package/luci/contrib/uci/uci-0.7.3/list.c:153-209 | The names and the counter of an import depend on section order and final options only |
| UciParser.ImportText | openwrt/package/luci/contrib/uci/uci-0.7.3/file.c:334-390 | The line loop over a file gives the package the import function describes, or its error |
| UciParser.Parser.ParseBuffer | openwrt/package/luci/contrib/uci/uci-0.7.3/file.c:182-229 | One line, cut at semicolons in place, does to the parser context what the line function says |
| UciParser.Parser.ParseConfig | openwrt/package/luci/contrib/uci/uci-0.7.3/file.c:102-142 | A config command finishes the section before it and opens or reopens a section |
| UciParser.Parser.ParseOption | openwrt/package/luci/contrib/uci/uci-0.7.3/file.c:147-177 | An option or list command sets or extends an option of the open section |
| UciTokens.TokenizingUndoesQuoting | openwrt/package/luci/contrib/uci/uci-0.7.3/util.c:335-404 | Successive arguments of a line of quoted strings are exactly the strings |
| UciTokens.QuotedArg | openwrt/package/luci/contrib/uci/uci-0.7.3/file.c:237-276 | A quoted string reads back as itself and leaves what follows the space |
| UciSpelling.SpelledArg | openwrt/package/luci/contrib/uci/uci-0.7.3/util.c:250-375 | Any spelling of an argument out of bare text, single and double quotes and backslashes reads back as what its pieces mean, and leaves what its end says |
| UciTokens.EscapeString | openwrt/package/luci/contrib/uci/uci-0.7.3/file.c:237-276 | The copying loop escapes every quote |
| UciLineBuffer.SuccessiveArguments | openwrt/package/luci/contrib/uci/uci-0.7.3/util.c:380-404 | Successive calls on one buffer leave every returned argument intact |
| UciLineBuffer.ParseStr | openwrt/package/luci/contrib/uci/uci-0.7.3/util.c:335-375 | In-place parsing leaves the argument as a C string at the write cursor, which never passes the read cursor, and touches nothing before it |
| UciLineBuffer.NextArgument | openwrt/package/luci/contrib/uci/uci-0.7.3/util.c:380-404 | The argument is the C string at the old cursor and the unread text is what the scanner leaves |
| UciLineBuffer.ParseDoubleQuote | openwrt/package/luci/contrib/uci/uci-0.7.3/util.c:285-308 | Inside double quotes a backslash takes the next character as it is |
| UciLineBuffer.ParseSingleQuote | openwrt/package/luci/contrib/uci/uci-0.7.3/util.c:313-330 | Inside single quotes every character stands for itself |
| UciLineBuffer.ArgumentKept | openwrt/package/luci/contrib/uci/uci-0.7.3/util.c:335-375 | Writing behind an argument leaves it the same string |
| UciLineBuffer.CheckEol | openwrt/package/luci/contrib/uci/uci-0.7.3/file.c:35-43 | Nothing but a comment, a semicolon or the end may follow a command |
| UciLineBuffer.LastArgument | openwrt/package/luci/contrib/uci/uci-0.7.3/file.c:147-177 | The last argument of a command is still there when the end of the command has been checked |
| UciPackage.Package.Set | openwrt/package/luci/contrib/uci/uci-0.7.3/list.c:620-672 | Setting a section or an option does what the edit function says and records it unless internal or unchanged; afterwards a lookup finds the value, or the type |
| UciEdits.SetStores | openwrt/package/luci/contrib/uci/uci-0.7.3/list.c:641-653 | Setting an option stores the value: nothing moves if it is there already, and otherwise it is last behind all the others in their order |
| UciEdits.SetStoresExactly | openwrt/package/luci/contrib/uci/uci-0.7.3/list.c:641-653 | With several options of one name, which only renaming brings about, the value is found exactly when it was there or no other option of the name follows with another value |
| UciEdits.SetTreeStores | openwrt/package/luci/contrib/uci/uci-0.7.3/list.c:620-672 | After a set a lookup finds the value, or the section with the type |
| UciEdits.AddAppends | openwrt/package/luci/contrib/uci/uci-0.7.3/list.c:579-618 | An addition puts the item behind what the option held and leaves the others |
| UciEdits.DeleteTreeRemoves | openwrt/package/luci/contrib/uci/uci-0.7.3/list.c:552-577 | A deleted option is not found, and in place of a deleted section the next of its name |
| UciEdits.RenamedIsFound | openwrt/package/luci/contrib/uci/uci-0.7.3/list.c:506-534 | A renamed section is found by its new name, with its options and no longer anonymous, unless one before it has the name |
| UciEdits.RenameMoves | openwrt/package/luci/contrib/uci/uci-0.7.3/list.c:506-534 | A renamed option keeps its place and value under the new name if that is free |
| UciPackage.Package.Assign | openwrt/package/luci/contrib/uci/uci-0.7.3/list.c:620-672 | The change without the record: new section, changed type, new or updated option, or the error with nothing changed |
| UciPackage.Package.AddList | openwrt/package/luci/contrib/uci/uci-0.7.3/list.c:579-618 | A value joins a list; a string becomes a list at the tail first; afterwards a lookup finds the old items and the new one |
| UciPackage.Package.ConvertToList | openwrt/package/luci/contrib/uci/uci-0.7.3/list.c:609-615 | The list that replaces a string holds it and moves to the tail |
| UciPackage.Package.DeleteElement | openwrt/package/luci/contrib/uci/uci-0.7.3/list.c:552-577 | Deleting removes the first element of the name and records it; the option is not found afterwards |
| UciPackage.Package.RenameElement | openwrt/package/luci/contrib/uci/uci-0.7.3/list.c:506-534 | Renaming changes the first element of the name, whether or not the new name is taken; under a free name it is found afterwards |
| UciPackage.Package.NewAnonymousSection | openwrt/package/luci/contrib/uci/uci-0.7.3/list.c:536-550 | An added section is anonymous, gets a generated name, counts twice and is recorded with that name |
| UciPackage.Package.FixupSection | openwrt/package/luci/contrib/uci/uci-0.7.3/list.c:153-186 | A nameless section is named from the counter and the hash of its type and options |
| UciPackage.Package.AllocSection | openwrt/package/luci/contrib/uci/uci-0.7.3/list.c:188-209 | A new section joins the tail and counts once; without a name it stays nameless |
| UciTree.GeneratedNameInjective | openwrt/package/luci/contrib/uci/uci-0.7.3/list.c:153-186 | Generated names are valid, and equal only when counter and low hash half are |
| UciTree.NameInText | openwrt/package/luci/contrib/uci/uci-0.7.3/list.c:153-186 | A generated name as text: cfg, the counter in two digits, the low half of the hash in four |
| UciTree.DjbHash | openwrt/package/luci/contrib/uci/uci-0.7.3/util.c:63-76 | The hash loop over a string, modulo 2 to the 32nd |
| UciTree.HashInText | openwrt/package/luci/contrib/uci/uci-0.7.3/util.c:63-76 | The hash of a word long enough to run over and of a character that counts as negative |
| UciText.ValidateStr | openwrt/package/luci/contrib/uci/uci-0.7.3/util.c:83-97 | The validator accepts exactly names, or exactly types |
| UciText.ValidateText | openwrt/package/luci/contrib/uci/uci-0.7.3/util.c:114-124 | The validator accepts exactly the texts of one line without control characters other than tabs |
| UciText.CharacterClasses | openwrt/package/luci/contrib/uci/uci-0.7.3/util.c:83-124 | Type characters are the visible ones of ASCII, name characters letters, digits and underscores, text characters all but control characters other than tabs |
| UciText.SplitUnlines | openwrt/package/luci/contrib/uci/uci-0.7.3/util.c:203-236 | Printed lines are read back as lines |
| UciLists.Insert | openwrt/package/luci/contrib/uci/uci-0.7.3/list.c:22-29 | Inserting behind a node of a circular list |
| UciLists.Add | openwrt/package/luci/contrib/uci/uci-0.7.3/list.c:31-36 | Adding at the tail through the back pointer of the head |
| UciLists.Del | openwrt/package/luci/contrib/uci/uci-0.7.3/list.c:38-49 | Unlinking a node leaves both parts circular |
| UciLists.Lookup | openwrt/package/luci/contrib/uci/uci-0.7.3/list.c:278-288 | The walk finds the first node of a name |
| UciLists.DeleteNamed | openwrt/package/luci/contrib/uci/uci-0.7.3/list.c:114-134 | Deleting while walking removes exactly the selected nodes and keeps the order of the rest |
| UciLists.SetOnList | openwrt/package/luci/contrib/uci/uci-0.7.3/list.c:641-653 | Setting an option on the circular list of nodes leaves it holding what the edit of the tree says, an updated option at the tail |
| OneWireEnumeration.CompleteEnumeration | examples/MT-DS/avr/libraries/OneWire/OneWire.cpp:311-427 | On a bus whose devices all have a family code the k-th search after a fresh state succeeds and finds the device of rank k in lexicographic order of its bits, lowest bit of each byte first |
| OneWireEnumeration.EnumerationEnds | examples/MT-DS/avr/libraries/OneWire/OneWire.cpp:417-424 | The search after the last device fails and leaves a fresh state |
| OneWireEnumeration.CompleteExactly | examples/MT-DS/avr/libraries/OneWire/OneWire.cpp:311-427 | Every device is found by some search if and only if every device has a family code |
| OneWireEnumeration.NothingFound | examples/MT-DS/avr/libraries/OneWire/OneWire.cpp:417-424 | One device with a zero first byte hides the bus: no search ever succeeds |
| OneWireEnumeration.BufferDoesNotMatter | examples/MT-DS/avr/libraries/OneWire/OneWire.cpp:282-294 | What the ROM buffer held before does not change what is found |
| OneWireOrder.SearchesInOrder | examples/MT-DS/avr/libraries/OneWire/OneWire.cpp:342-414 | The k-th pass ends at the device with k devices before it, and its last discrepancy is zero exactly at the last device |
| OneWireOrder.ResumedSkipsNothing | examples/MT-DS/avr/libraries/OneWire/OneWire.cpp:354-376 | No device lies between the device found last and the next one found |
| OneWireOrder.ResumedMovesOn | examples/MT-DS/avr/libraries/OneWire/OneWire.cpp:354-376 | With a discrepancy left the next pass finds a later device |
| OneWireOrder.EveryDeviceFound | examples/MT-DS/avr/libraries/OneWire/OneWire.cpp:311-427 | Each device is found by the search of its rank |
| OneWireOrder.LastExactly | examples/MT-DS/avr/libraries/OneWire/OneWire.cpp:403-414 | The last discrepancy is zero exactly at the device of the highest rank |
| OneWireOrder.NoFamilyComesFirst | examples/MT-DS/avr/libraries/OneWire/OneWire.cpp:417-424 | The first device found has a zero first byte exactly when some device has one |
| OneWireSearch.OneWire.Search | examples/MT-DS/avr/libraries/OneWire/OneWire.cpp:311-427 | One call: reset, command, pass and checks give the state and the result of the search function, and the buffer is copied out |
| OneWireSearch.OneWire.SearchPass | examples/MT-DS/avr/libraries/OneWire/OneWire.cpp:342-401 | The loop over 64 bits, with byte index and moving mask, ends with the code of the walk, its last zero and the family discrepancy |
| OneWireSearch.OneWire.ChooseDirection | examples/MT-DS/avr/libraries/OneWire/OneWire.cpp:359-366 | Before the last discrepancy the old bit, at it a one, after it a zero |
| OneWireSearch.OneWire.ResetSearch | examples/MT-DS/avr/libraries/OneWire/OneWire.cpp:282-294 | The state and the buffer are cleared |
| OneWireSearch.ReadPair | examples/MT-DS/avr/libraries/OneWire/OneWire.cpp:345-351 | The two reads of the wired-AND bus say which branches are live |
| OneWireSearch.SetBit | examples/MT-DS/avr/libraries/OneWire/OneWire.cpp:378-383 | Exactly one bit of the buffer changes |
| OneWireBits.ValidAddress | examples/MT-DS/avr/libraries/DallasTemperature/DallasTemperature.cpp:65-68 | An address is valid exactly when its 64 bits fold to zero in the 8-bit code |
| DallasTemperatures.AlarmRefinesSearch | examples/MT-DS/avr/libraries/DallasTemperature/DallasTemperature.cpp:583-646 | Over whole runs from fresh states, whatever the two buffers hold: after every call up to the number of alarming devices junction plus one is the last discrepancy and exhausted is the last-device flag, from the first call on both hold the same code, both searches succeed alike, and then both fail |
| DallasTemperatures.AlarmRefinesExactly | examples/MT-DS/avr/libraries/DallasTemperature/DallasTemperature.cpp:583-646 | Both searches, from fresh states with any buffers, succeed alike over a whole run if and only if every alarming device has a family code, which only the ROM search asks for |
| DallasTemperatures.AlarmStepExactly | examples/MT-DS/avr/libraries/DallasTemperature/DallasTemperature.cpp:583-646 | One call from the same place keeps both in step if and only if every device still ahead of that place has a family code |
| DallasTemperatures.DallasTemperature.ResetAlarmSearch | examples/MT-DS/avr/libraries/DallasTemperature/DallasTemperature.cpp:563-569 | The reset clears seven bytes of the buffer, keeps the eighth, and leaves a fresh state |
| DallasTemperatures.DallasTemperature.AlarmSearch | examples/MT-DS/avr/libraries/DallasTemperature/DallasTemperature.cpp:583-646 | One call gives the state and the result of the alarm search function and keeps the remembered place in step |
| DallasTemperatures.DallasTemperature.AlarmPass | examples/MT-DS/avr/libraries/DallasTemperature/DallasTemperature.cpp:595-641 | The loop with the junction rewritten in the middle ends at the walk's device with the junction one less than its last zero |
| DallasTemperatures.DecidesAlike | examples/MT-DS/avr/libraries/DallasTemperature/DallasTemperature.cpp:606-635 | At every bit the decision by the junction is the direction of the ROM search |
| DallasTemperatures.SyncKept | examples/MT-DS/avr/libraries/DallasTemperature/DallasTemperature.cpp:583-646 | The remembered place stays one the devices lead to; an exhausted search stays exhausted |
| DallasTemperatures.DallasTemperature.ProcessAlarms | examples/MT-DS/avr/libraries/DallasTemperature/DallasTemperature.cpp:679-689 | The handler is called for each alarming device with a valid code exactly once, in order, and the loop ends |
| DallasTemperatures.DallasTemperature.HasAlarm | examples/MT-DS/avr/libraries/DallasTemperature/DallasTemperature.cpp:671-676 | True exactly when some device signals an alarm |
| DallasTemperatures.DallasTemperature.Begin | examples/MT-DS/avr/libraries/DallasTemperature/DallasTemperature.cpp:34-56 | The count is the number of valid devices in a byte, or zero when a device without family code hides the bus |
| DallasTemperatures.DallasTemperature.GetAddress | examples/MT-DS/avr/libraries/DallasTemperature/DallasTemperature.cpp:72-85 | True exactly when the device of that rank has a valid code, the buffer then holding it; the depth is a byte |
| DallasTemperatures.DallasTemperature.SetResolution | examples/MT-DS/avr/libraries/DallasTemperature/DallasTemperature.cpp:202-212 | The resolution is constrained and the devices of the lowest ranks are visited in order |
| DallasTemperatures.ResolutionReachesExactly | examples/MT-DS/avr/libraries/DallasTemperature/DallasTemperature.cpp:202-212 | Every valid device is visited if and only if no invalid device comes before a valid one, because the count leaves invalid devices out and the index does not |
| DallasTemperatures.DallasTemperature.BeginAndSetResolution | examples/MT-DS/avr/libraries/DallasTemperature/DallasTemperature.cpp:34-56 | Counting and then setting the resolution of that many devices reaches all valid ones if and only if the bus is not hidden by a device without family code, fewer than 256 are valid and no invalid one comes before a valid one |
| DallasTemperatures.InvalidDeviceFirst | examples/MT-DS/avr/libraries/DallasTemperature/DallasTemperature.cpp:202-212 | A bus where it fails: of two sensors the first has a damaged code, and only that one is visited |
| Crc.BurstDetected | examples/MT-DS/avr/libraries/OneWire/OneWire.cpp:464-492 | Two messages of one length that differ only within eight consecutive transmitted bits have different codes |
| Crc.DamagedByteDetected | examples/MT-DS/avr/libraries/OneWire/OneWire.cpp:464-492 | Changing one byte changes the code |
| Crc.NineBitsUndetected | examples/MT-DS/avr/libraries/OneWire/OneWire.cpp:464-492 | The bound of eight is exact: in any message, at any place, two bytes can be changed within nine consecutive transmitted bits so that the code stays the same |
| Crc.SelfChecking | examples/MT-DS/avr/libraries/DallasTemperature/DallasTemperature.cpp:65-68 | A message followed by a byte has code zero exactly when the byte is its code |
| Crc.Crc8Fast | examples/MT-DS/avr/libraries/OneWire/OneWire.cpp:439-473 | The table loop computes the bit-serial code |
| Crc.Crc8Slow | examples/MT-DS/avr/libraries/OneWire/OneWire.cpp:478-492 | The shifting loops compute the bit-serial code |
| Crc.CheckValue8 | examples/MT-DS/avr/libraries/OneWire/OneWire.cpp:464-473 | The published check value of the 8-bit code |
| Crc.Table8IsMasked | examples/MT-DS/avr/libraries/OneWire/OneWire.cpp:439-455 | Every entry of the table is eight shifts of its index |
| Crc.ByteAtOnce8 | examples/MT-DS/avr/libraries/OneWire/OneWire.cpp:464-473 | Feeding the bits of a byte is shifting the combined register eight times |
| Crc.DowCrc | openwrt/package/luci/libs/nixio/src/binary.c:146-157 | The seeded loop computes the bit-serial code from the seed |
| Crc.DowSeeded | openwrt/package/luci/libs/nixio/src/binary.c:146-157 | The code of two parts is the code of the second seeded with the code of the first |
| Crc16.Crc16Fast | examples/MT-DS/avr/libraries/OneWire/OneWire.cpp:502-524 | The loop with the parity table and two shifts computes the reflected bitwise code with constant 0xA001 |
| Crc16.CheckValue16 | examples/MT-DS/avr/libraries/OneWire/OneWire.cpp:502-524 | The published check value of the 16-bit code |
| Crc16.ParityByte | examples/MT-DS/avr/libraries/OneWire/OneWire.cpp:508-521 | One byte: parity, constant and two shifts are eight steps of the register |
| Crc16.CheckCrc16 | examples/MT-DS/avr/libraries/OneWire/OneWire.cpp:496-500 | True exactly when the two bytes are the inverted code, low byte first |
| Crc32.Crc32Fast | openwrt/package/luci/libs/nixio/src/binary.c:132-144 | The table loop computes the seeded bit-serial code with constant 0xEDB88320 |
| Crc32.CheckValue32 | openwrt/package/luci/libs/nixio/src/binary.c:132-144 | The published check value of the 32-bit code |
| Crc32.Crc32Seeded | openwrt/package/luci/libs/nixio/src/binary.c:132-144 | The code of two parts is the code of the second seeded with the code of the first |
| Crc32.Table32IsMasked | openwrt/package/luci/libs/nixio/src/binary.c:42-95 | Every entry of the table is eight shifts of its index |
| Aes.BlockRoundTrip | openwrt/package/luci/libs/nixio/axTLS/crypto/aes.c:353-454 | For any round keys, decryption with the converted keys undoes encryption |
| AesCbc.MessageRoundTrip | openwrt/package/luci/libs/nixio/axTLS/crypto/aes.c:271-348 | For any number of blocks, cut into calls in any way on both sides, the ciphertext is that of one call and decryption returns the message |
| AesSession.Exchange | openwrt/package/luci/libs/nixio/axTLS/crypto/aes.c:177-348 | What is sent is one chained encryption of all the bytes with the schedule of the key, and what arrives is the bytes: two contexts set one key, one encrypts byte strings call by call, the other converts its key and decrypts the ciphertext cut in any other way between blocks |
| AesSession.EncryptInCalls | openwrt/package/luci/libs/nixio/axTLS/crypto/aes.c:271-305 | However many calls, the ciphertext bytes are those of one chained encryption of the concatenation |
| AesSession.DecryptInCalls | openwrt/package/luci/libs/nixio/axTLS/crypto/aes.c:310-348 | However many calls, the message bytes are those of one chained decryption of the concatenation |
| AesSession.BlocksInjective | openwrt/package/luci/libs/nixio/axTLS/crypto/aes.c:271-348 | The blocks of a byte string determine it |
| AesSession.ExpandedIsSchedule | openwrt/package/luci/libs/nixio/axTLS/crypto/aes.c:203-243 | The round keys of an expanded key are the schedule of section 5.2 of FIPS 197, whatever the words held before |
| AesCbc.CbcEncryptCall | openwrt/package/luci/libs/nixio/axTLS/crypto/aes.c:271-305 | The blocks of a call are chained from the kept block, which becomes the last ciphertext block; input and output may be one buffer |
| AesCbc.CbcDecryptCall | openwrt/package/luci/libs/nixio/axTLS/crypto/aes.c:310-348 | The blocks of a call are unchained from the kept block, which becomes the last ciphertext block; input and output may be one buffer |
| AesRounds.CbcRoundTrip | openwrt/package/luci/libs/nixio/axTLS/crypto/aes.c:271-348 | Unchaining undoes chaining |
| AesRounds.CbcEncryptAt | openwrt/package/luci/libs/nixio/axTLS/crypto/aes.c:271-305 | Every ciphertext block is the encryption of its message block and the ciphertext block before it |
| AesRounds.CbcDecryptAt | openwrt/package/luci/libs/nixio/axTLS/crypto/aes.c:310-348 | Every message block is the decryption of its ciphertext block and the ciphertext block before it |
| AesRounds.EncryptCallsAreOne | openwrt/package/luci/libs/nixio/axTLS/crypto/aes.c:271-305 | Calls on successive parts give the ciphertext of one call on the whole |
| AesRounds.DecryptCallsAreOne | openwrt/package/luci/libs/nixio/axTLS/crypto/aes.c:310-348 | Calls on successive parts give the message of one call on the whole |
| AesRounds.DecryptionUndoesEncryption | openwrt/package/luci/libs/nixio/axTLS/crypto/aes.c:353-454 | The round structures undo each other for any substitution, mix and key addition with inverse, linear and cancelling laws |
| Aes.AesCtx.Encrypt | openwrt/package/luci/libs/nixio/axTLS/crypto/aes.c:353-398 | The loops over rounds and rows compute the cipher with the keys of the context |
| Aes.AesCtx.Decrypt | openwrt/package/luci/libs/nixio/axTLS/crypto/aes.c:403-454 | The loops going down the keys compute the equivalent inverse cipher |
| Aes.AesCtx.ConvertKey | openwrt/package/luci/libs/nixio/axTLS/crypto/aes.c:252-266 | The keys between the first and the last are unmixed in place, the others stay |
| Aes.AesCtx.SetKey | openwrt/package/luci/libs/nixio/axTLS/crypto/aes.c:177-247 | Both key sizes are expanded as section 5.2 of FIPS 197 defines; another mode changes nothing |
| Aes.ExpandKey | openwrt/package/luci/libs/nixio/axTLS/crypto/aes.c:203-243 | Every word of the schedule is the word of the standard's recursion |
| Aes.RconIsPower | openwrt/package/luci/libs/nixio/axTLS/crypto/aes.c:155-161 | The round constants are the powers of two in GF(2^8) |
| Aes.MixBytes | openwrt/package/luci/libs/nixio/axTLS/crypto/aes.c:379-388 | The sum and four doublings are the column mix 2, 3, 1, 1 |
| Aes.UnmixBytes | openwrt/package/luci/libs/nixio/axTLS/crypto/aes.c:427-446 | The seven shared doublings are the inverse column mix 14, 11, 13, 9 |
| AesWords.InvMixColWord | openwrt/package/luci/libs/nixio/axTLS/crypto/aes.c:62-75 | The word-parallel macro is the inverse column mix |
| AesWords.UnpackMul2 | openwrt/package/luci/libs/nixio/axTLS/crypto/aes.c:48-63 | One word addition and masks double four bytes at once |
| AesBytes.UnmixUndoesMix | openwrt/package/luci/libs/nixio/axTLS/crypto/aes.c:379-446 | The inverse column mix undoes the column mix |
| AesBytes.UnmixLinear | openwrt/package/luci/libs/nixio/axTLS/crypto/aes.c:62-75 | The inverse column mix is linear over exclusive or |
| AesBytes.UnmixRowIsInverseRow | openwrt/package/luci/libs/nixio/axTLS/crypto/aes.c:427-446 | The program's form of a row is the row of the standard |
| AesSbox.SboxInverse | openwrt/package/luci/libs/nixio/axTLS/crypto/aes.c:80-153 | The second table inverts the first |
| AesStandard.SboxOfTheStandard | openwrt/package/luci/libs/nixio/axTLS/crypto/aes.c:80-117 | Every entry of the table is the affine map of the inverse of its index in GF(2^8), as section 5.1.1 of FIPS 197 defines it |
| AesStandard.MixOfTheStandard | openwrt/package/luci/libs/nixio/axTLS/crypto/aes.c:379-446 | The rows of the two column mixes are the products with 2, 3, 1, 1 and with 14, 11, 13, 9 in GF(2^8) |
| AesVectors.EncryptsBytes | openwrt/package/luci/libs/nixio/axTLS/crypto/aes.c:353-398 | The schedule and the block of appendix C.1 of FIPS 197, every round key and every state of it proved |
| AesVectors.Expands256 | openwrt/package/luci/libs/nixio/axTLS/crypto/aes.c:203-243 | Words 8 to 15 of the 256-bit key of appendix A.3 of FIPS 197, both kinds of changed words among them |
| AesBytes.XtimeLinear | openwrt/package/luci/libs/nixio/axTLS/crypto/aes.c:169-172 | Doubling is linear over exclusive or |
| Md5.Md5State.Append | openwrt/package/luci/contrib/lar/md5.c:323-358 | After any call the registers fold the whole blocks of everything appended, the buffer starts with the rest and the two words count its bits modulo 2 to the 64th |
| Md5.Md5State.Finish | openwrt/package/luci/contrib/lar/md5.c:361-381 | The digest is that of the padded message, the length being saved before the padding |
| Md5.DigestOfParts | openwrt/package/luci/contrib/lar/md5.c:323-381 | However a message is cut into calls, the digest is that of the whole |
| Md5.CountAdds | openwrt/package/luci/contrib/lar/md5.c:328-337 | Adding with the carry into the second word adds to the length |
| Md5.PaddingEndsBlock | openwrt/package/luci/contrib/lar/md5.c:375-378 | The padding ends on a block boundary and is the shortest that does |
| Md5.FoldFilled | openwrt/package/luci/contrib/lar/md5.c:339-350 | Filling up a partial block is one more compression |
| Md5Block.Process | openwrt/package/luci/contrib/lar/md5.c:132-310 | The unrolled steps compute the compression function of section 3.4 of RFC 1321 |
| Md5Block.SelectsByX | openwrt/package/luci/contrib/lar/md5.c:202 | Bit by bit, the first function is its second argument where the first is one and its third elsewhere |
| Md5Block.SelectsByZ | openwrt/package/luci/contrib/lar/md5.c:228 | Bit by bit, the second function is its first argument where the third is one and its second elsewhere |
| Md5Block.TakesParity | openwrt/package/luci/contrib/lar/md5.c:254 | Bit by bit, the third function is the parity of its arguments |
| Md5Block.TurnsAround | openwrt/package/luci/contrib/lar/md5.c:280 | Bit by bit, the fourth function is its second argument where the first is zero and the third one, and the opposite elsewhere |
| Md5Block.MovesUp | openwrt/package/luci/contrib/lar/md5.c:197 | A rotation moves the lower bits up |
| Md5Block.ComesRound | openwrt/package/luci/contrib/lar/md5.c:197 | A rotation brings the upper bits round below them |
| Md5Vectors.DigestOfNothing | openwrt/package/luci/contrib/lar/md5.c:361-381 | The digest of the empty message is the one of appendix A.5 of RFC 1321, all 64 steps proved |
| Md5.LengthDigits | openwrt/package/luci/contrib/lar/md5.c:361-381 | The last bytes of the padding are the digits of the length in bits, lowest first, modulo 2 to the 64th |
| Md5.WordBytes | openwrt/package/luci/contrib/lar/md5.c:147-193 | Words are read and written low byte first alike |
| SoftSerial.RingIsFifo | examples/Dragrove_SPI_Test/avr/NewSoftSerial/NewSoftSerial.cpp:434-459 | Under every interleaving of interrupts with the accesses of the main program the bytes handed out are a prefix of the bytes taken and at most 63 wait |
| SoftSerial.RingIsQueue | examples/Dragrove_SPI_Test/avr/NewSoftSerial/NewSoftSerial.cpp:257-459 | Under every interleaving the waiting bytes and the result of every call are those of a queue without indices that takes a byte exactly while fewer than 63 wait |
| SoftSerial.StepRefines | examples/Dragrove_SPI_Test/avr/NewSoftSerial/NewSoftSerial.cpp:257-459 | Each interrupt and each access does to the ring what one step does to that queue |
| SoftSerial.DropExactly | examples/Dragrove_SPI_Test/avr/NewSoftSerial/NewSoftSerial.cpp:257-270 | A byte is dropped exactly when 63 wait under the published index |
| SoftSerial.ReadFailsExactly | examples/Dragrove_SPI_Test/avr/NewSoftSerial/NewSoftSerial.cpp:442-444 | A read finds nothing exactly when nothing waits as it looks at the second index |
| SoftSerial.StepKeepsInv | examples/Dragrove_SPI_Test/avr/NewSoftSerial/NewSoftSerial.cpp:190-270 | Every step of either side keeps the invariant |
| SoftSerial.Port.Recv | examples/Dragrove_SPI_Test/avr/NewSoftSerial/NewSoftSerial.cpp:257-270 | The interrupt handler does the step of the model |
| SoftSerial.Port.Read | examples/Dragrove_SPI_Test/avr/NewSoftSerial/NewSoftSerial.cpp:434-450 | With interrupts before every access the call returns the oldest byte, or nothing when nothing waited; a newly active object has none |
| SoftSerial.Port.Available | examples/Dragrove_SPI_Test/avr/NewSoftSerial/NewSoftSerial.cpp:452-459 | With interrupts in between the count lies between what waited at the start and what waits at the end |
| SoftSerial.Port.FlushBuffer | examples/Dragrove_SPI_Test/avr/NewSoftSerial/NewSoftSerial.cpp:530-539 | Only the active object empties the ring |
| Lmo.ArchiveIsMap | openwrt/package/luci/libs/lmo/src/lmo_core.c:206-227 | In an archive written and opened the entry found holds the value of the earliest pair whose key has the hash |
| Lmo.LookupWritten | openwrt/package/luci/libs/lmo/src/lmo_core.c:206-227 | The caller gets the lesser of the length asked for and the length of the value, in bytes of the earliest matching pair, or -1 |
| Lmo.OpenedArchive | openwrt/package/luci/libs/lmo/src/lmo_core.c:97-124 | Opening what was written gives the entries in the order of the pairs: both sides prepend |
| Lmo.OpenArchive | openwrt/package/luci/libs/lmo/src/lmo_core.c:51-176 | Opening reads the index to the last word, or fails where the file ends too early or the index offset is zero |
| Lmo.WriteArchive | openwrt/package/luci/libs/lmo/src/lmo_po2lmo.c:144-192 | The writing loops produce values, index and offset; nothing to write leaves no file |
| Lmo.ValuesApart | openwrt/package/luci/libs/lmo/src/lmo_po2lmo.c:150-158 | Values start on multiples of four, do not overlap and end before the index |
| Lmo.Lookup | openwrt/package/luci/libs/lmo/src/lmo_core.c:206-227 | The first entry with the hash is copied; a negative length copies the whole value |
| Lmo.IndexRoundTrip | openwrt/package/luci/libs/lmo/src/lmo_core.c:97-124 | A written index is read back |
| Lmo.WordsBigEndian | openwrt/package/luci/libs/lmo/src/lmo_po2lmo.c:149-152 | Words stand in the file high byte first |
| Lmo.EntryLayout | openwrt/package/luci/libs/lmo/src/lmo_po2lmo.c:149-152 | An entry is four words: key, value, offset, length |
| Base64.RoundTrip | openwrt/package/luci/libs/nixio/src/binary.c:241-344 | Decoding the text of a byte string returns it |
| Base64.Alphabet | openwrt/package/luci/libs/nixio/src/binary.c:26-27 | The alphabet of RFC 4648 by ranges |
| Base64.PublishedTexts | openwrt/package/luci/libs/nixio/src/binary.c:241-289 | The published texts of f, fo, foo and foobar |
| Base64.ReencodesExactly | openwrt/package/luci/libs/nixio/src/binary.c:291-344 | Encoding again what a text decodes to gives the text exactly when its padding stands at the end over zero bits |
| Base64.StrayBitsDecode | openwrt/package/luci/libs/nixio/src/binary.c:291-344 | A text where it fails: QR== decodes to one byte, whose text is QQ== |
| Base64.EncodeBuffer | openwrt/package/luci/libs/nixio/src/binary.c:241-289 | The loop and the padding step write the text of the given bytes whatever lies past their end |
| Base64.EncodedLength | openwrt/package/luci/libs/nixio/src/binary.c:245-255 | Four characters for every three bytes begun |
| Base64.DecodeText | openwrt/package/luci/libs/nixio/src/binary.c:291-344 | The loops compute the decoding of the definition |
| Base64.DecodesExactly | openwrt/package/luci/libs/nixio/src/binary.c:295-325 | A text is accepted exactly when it has whole groups of characters with a value |

## Left out

- Configuration lines longer than the parser's 4096-byte buffer, lines continued with a backslash before the newline, and files with NUL bytes are not part of this model.
- The extended section lookup by type and index, merging imports, extra journal directories, exporting under another name, the lenient parse mode and committing with the overwrite flag are left out; each adds a case to a function, not a law.
- File locking, temporary files, `stat`, `mkdir`, memory allocation failure and the jump-based error handling are left out: files are texts and errors are results.
- UciReplay.SessionReplays: deleting a section or an option twice and similar failing edits add nothing to the journal, as in the code; the theorem is about the edits that succeed.
- UciRevert.RevertShows: states what looking a section up finds, not where it stands: deleting an earlier section moves it.
- UciParser.Parser.ParseBuffer: a command word that ends the buffer is read as a command without arguments; the code steps one past the terminator there, which after a last line without a newline is text left from an earlier line.
- UciPackage.Package.Set: the package holds sections and options as sequences; the circular lists under them are modelled in `UciLists`, where only setting an option is tied to the tree, and moving memory while a section is retyped is not modelled.
- UciPackage.Package.AddList: the call without an option is not modelled, because the command line never makes it.
- The section counter is an unbounded integer; the wrap after 2 to the 31st sections is not modelled.
- Electrical timing, pin access and presence retries of the 1-Wire bus are left out: a bus answers as the set of its devices, which does not change during a run.
- OneWireSearch.OneWire.Search: devices do not appear or vanish during an enumeration; the branch for two high reads is kept and never taken.
- Temperature conversion, scratchpad contents, alarm limits and setting the resolution of one device are left out: they do not touch the search.
- DallasTemperatures.DallasTemperature.Begin: the power supply and resolution reads between two searches are left out; each search starts with a bus reset.
- The AES key is any array of bytes; reading a key from another aligned or overlapping memory area is not modelled, and a buffer that overlaps another in part is not either.
- Aes.AesCtx.SetKey: the schedule is compared with the recursion of the standard; that the cipher is secure is no statement of this model.
- Md5.Md5State.Append: a byte count of 2 to the 28th or more is shifted with wrap-around, which C leaves undefined for signed numbers.
- Md5Block.Process: the two ways of loading words by byte order are modelled by the portable one.
- SoftSerial.Port.Read: sampling of the eight data bits from the pin, and the overflow flag of an object, are left out; the byte is a parameter of the interrupt.
- The text parser that produces the pairs of an archive, and the hash of keys, are left out: pairs and hash are parameters.
- Lmo.WriteArchive: the linked list of entries is a sequence that is prepended to, and values that do not fit in 2 gigabytes, which overflow the offset in the code, are excluded.
- Lmo.Lookup: entries of a file not written by the writer may point outside the values; the lookup requires that they do not.
- DallasTemperatures.DallasTemperature.SetResolution: the field that keeps the resolution is a result, and what is written to each device is left out.
- Base64.EncodeBuffer: two readable bytes past the end are required, as the last turn of the loop reads them.
- The template parser, character set conversion, the Lua bindings, the network and TLS layers, and the display programs are left out.
