# Verified models of LuCI's parsers, stores and loaders

A Dafny model of the parts of the LuCI repository where most of the state and
arithmetic sits, and proofs about it:

* **Multipart uploads** (`Multipart*.dfy`, `Upload*.dfy`). The resumable parser of
  `cgi-io` is a class over chunks (`MultipartParser.Parser`, with its phase, index
  and lookbehind array) proved against a machine that takes one byte at a time
  (`MultipartMachine`). Proved: for which boundaries the matcher finds the first
  delimiter (and for every other boundary, that it does not), that chunking changes
  neither errors nor part data, which cuts change the header callbacks, the round trip
  with a printer of bodies, exactly which input is accepted (`MultipartGrammar`), which
  headers name which part (`UploadNames`), and that `main_upload` with its callbacks, given a form as
  the file browser sends it, writes exactly the file if the session may upload and may
  write the path, and nothing otherwise; it answers at most once.
* **UCI staging** (`Uci*.dfy`). The four overlay maps of `uci.js` against one plain
  configuration, over whole editing sessions, the calls `save` issues against
  what readers of the store see, and `move`, which changes the order and nothing else
  (`UciSessions.dfy`: in every session a section that is added comes last; `UciNamed.dfy`:
  it is saved under the name it was given).
* **Firewall zones and forwardings** (`Firewall*.dfy`): a joint invariant over every run,
  the calls that break its full form, when a rename can be undone, what each operation
  does told from kinds and options alone (`FirewallEffects.dfy`), and
  (`FirewallStore.dfy`) that any run, as calls to the UCI store, leaves there and saves
  what it makes of the list of sections.
* **Command lines and forms** (`CStrings.dfy`, `UrlEncoding.dfy`, `Form*.dfy`,
  `Command*.dfy`, `Exec*.dfy`). The in-place decoders of `util.c` and the encoder
  of `fs.js`, each against a specification, and the round trip of an argument list
  through all of them.
* **Paths** (`CanonicalPath.dfy`). `canonicalize_path` against splitting the path and
  walking its components.
* **Class loading** (`ClassLoader.dfy`, `ClassLoading.dfy`). `LuCI.require` as a state
  machine in which replies and results come in any order; which cycles it notices, told
  from the class files alone (`ClassCycles.dfy`).
* **Random numbers** (`Int32.dfy`, `Prng*.dfy`). The limb arithmetic of `prng.js` under
  JavaScript's 32-bit operators, and the full period of the generator.
* **Addresses** (`Ipv6*.dfy`). `parseIPv6` of `validation.js` and exactly which texts it
  reads, as which words.
* **Datatype expressions** (`Datatype*.dfy`). The compiler of `validation.js` against a
  printer, and its `or` and `and` validators against the meaning of the expression.

Code that changes state is a class or a method with loops, proved against a
specification function; the main results are lemmas about those functions.

Where code and documentation disagree, or the code does what its callers would not expect,
the model follows the code:

* `set` is documented to remove an option when given the empty string
  (`uci.js:534-537`); in a section that has just been created it stores the empty
  string (`uci.js:550-555`). `UciStore.SetRefines` says exactly when the two agree.
* `require` is documented to throw a `DependencyError` for circular dependencies
  (`luci.js:2417-2419`). `ClassLoading.CycleUnnoticed` is a cycle for which it throws
  nothing and leaves promises pending for good. `ClassCycles.RaisedExactly` says for which
  sites some order of replies raises the error: those where a path of requirements from the
  class, without shortcuts, runs into itself. A class that is on a cycle is rejected in every order
  (`ClassCycles.OnCycleRejected`), and a class is instantiated exactly if it needs no cycle
  and no missing file (`ClassLoading.LoadedExactly`).
* A boundary whose delimiter overlaps itself makes the multipart matcher miss
  delimiters (`MultipartMatching.MissedDelimiter`); every boundary without a CR is safe.
* Section 5.1.1 of RFC 2046 allows a preamble before the first boundary line, and blanks
  after a boundary; the parser refuses both (`MultipartGrammar.FirstLine`,
  `MultipartGrammar.AcceptsExactly`).
* A part name may be cut short: a part called `f` is taken for the file data
  (`main.c:310-312`, `UploadNames.CalledExactly`).
* Reading a whole section folds pending changes into the loaded copy
  (`uci.js:499-510`), after which a deletion can be lost (`UciSave.MergedDeletionIsLost`);
  `UciLost.SessionSavesExactly` says, from the operations alone, which sessions are saved as
  they read.
* `sections` merges pending changes into the sections it shows but not pending deletions
  (`uci.js:402-405`): `UciOrder.CopyExactly` says when a section is shown as it reads. The
  firewall finds a zone under a name that was deleted (`FirewallStore.DeletedNameIsFound`).
* `canonicalize_path` of no bytes before a nonzero byte writes its NUL behind the one byte
  it allocated (`util.c:199`, `util.c:240-243`); `CanonicalPath.FitsExactly` says that every
  other path fits. An empty file name in an upload leads there (`multipart_parser.c:232`,
  `main.c:355`): `CanonicalPath.CanonicalizePath`, `UploadForms.FormWritten` and
  `UploadForms.StandardForm` give it as an outcome of its own, and say nothing of what follows.
* A datatype that compiles to nothing, or to a list that begins with a literal, is accepted
  by the constructor and raises a TypeError for every value that is not empty
  (`validation.js:47-62`, `DatatypeEval.Validate`).
* A chunk that ends in a header name or value changes what the header callbacks are told
  (`multipart_parser.c:166-168`, `multipart_parser.c:181-182`, `multipart_parser.c:210-211`):
  `MultipartChunks.HeadersExactly` says which cuts do.
* The object of a zone that is gone adds forwardings with one end, and the same one twice
  (`firewall.js:385-402`): `FirewallRuns.StepFullySound` says that nothing else breaks the
  invariant.
* A zone whose section is named after it can be renamed but not renamed back
  (`FirewallRuns.RenameBack`), because zones are looked up by section name first.
* Section 2.2 of RFC 4291 lets "::" stand for one group of zeros; at either end of an
  address `parseIPv6` refuses that (`Ipv6RoundTrip.ShortForm`).
* Blanks after a closing parenthesis make a datatype expression invalid, blanks anywhere
  else around its parts do not (`DatatypeRoundTrip.CompilesArgs`).

## Model

| member | source | states |
|---|---|---|
| MultipartMachine.RunConcat | src/cgi-io/multipart_parser.c:114-312 | Reading two pieces of input in turn is reading them as one: phase, index, tokens and error offset carry over a cut. |
| MultipartParser.Parser.constructor | src/cgi-io/multipart_parser.c:81-101 | A new parser stands at the start, its lookbehind area is big enough for any held-back delimiter, and nothing has been called. |
| MultipartParser.Parser.Execute | src/cgi-io/multipart_parser.c:114-312 | One call delivers exactly what the byte machine yields for the chunk, plus the pending header fragment at its end; it returns the error offset, leaves the machine's phase and index and the held-back delimiter in the lookbehind area, and stops at the first callback that fails, having delivered a prefix. Data is handed over after the headers only, at least once before a part ends, and in runs: of two data calls in a row within a chunk one holds a CR. |
| MultipartParser.Advance | src/cgi-io/multipart_parser.c:114-310 | A pass that consumes a byte moves the byte machine by that byte: what was delivered and the pending run stay what the bytes so far yield. |
| MultipartParser.Reconsider | src/cgi-io/multipart_parser.c:240-262 | A pass that releases the held-back delimiter and looks at the byte again (`mark = i --`) leaves the whole outcome unchanged. |
| MultipartParser.Follow | src/cgi-io/multipart_parser.c:114-312 | The loop invariant, delivered tokens plus pending bytes being the machine's tokens, survives every way a pass can end. |
| MultipartMatching.UpToDelimiter | src/cgi-io/multipart_parser.c:228-268 | With a restartable delimiter the data of a part is every byte before the first delimiter, and the part ends right there. |
| MultipartMatching.WithoutDelimiter | src/cgi-io/multipart_parser.c:228-268 | As long as no delimiter has occurred, released bytes plus the held-back ones are the bytes read. |
| MultipartMatching.MissedDelimiter | src/cgi-io/multipart_parser.c:251-268 | For a delimiter that is not restartable, a body containing it that the parser reads without ending the part. |
| MultipartMatching.MatcherIsExact | src/cgi-io/multipart_parser.c:228-268 | Part data ends at the first delimiter, for every body, if and only if the delimiter is restartable. |
| MultipartMatching.WithoutCR | src/cgi-io/multipart_parser.c:251-268 | Every boundary without a CR has a restartable delimiter. |
| MultipartChunks.ChunkInvariance | src/cgi-io/multipart_parser.c:114-312 | However input is cut into chunks, the final state, the error offset, the notifications and the part data are those of one call. |
| MultipartChunks.HeadersExactly | src/cgi-io/multipart_parser.c:153-219 | Header names and values are delivered as in one call if and only if no chunk ends inside a value, after the CR of a value, after a letter of a name, or after a hyphen of a name that reaches its colon. |
| MultipartRoundTrip.HyphenCut | src/cgi-io/multipart_parser.c:166-168 | Any name cut after a hyphen is delivered without what stands before the cut. |
| MultipartRoundTrip.ReturnCut | src/cgi-io/multipart_parser.c:206-211 | Any value whose CR ends a chunk is delivered a second time, with its CR. |
| MultipartChunks.Upload | src/cgi-io/main.c:482-500 | The read loop answers the client at most once, and ignores input after that; without an answer it has told the callbacks what one call on the whole request would, header callbacks included if and only if every cut is harmless. |
| MultipartRoundTrip.RoundTrip | src/cgi-io/multipart_parser.c:130-303 | Parsing the printed form of any list of parts yields each part's begin, headers, headers complete, body and end, then the end of the body. |
| MultipartRoundTrip.ChunkedRoundTrip | src/cgi-io/multipart_parser.c:114-312 | The same for every way of cutting the printed form into chunks, header callbacks included if and only if every cut is harmless. |
| MultipartGrammar.FirstLine | src/cgi-io/multipart_parser.c:130-152 | Unless the input begins with the boundary and CR LF nothing is told, and it is refused at its first byte that differs from them; it is accepted only as far as it agrees with them. |
| MultipartGrammar.WordIsRead | src/cgi-io/multipart_parser.c:114-312 | Every word of a grammar (first boundary line; parts of header lines, a blank line, data up to the delimiter; CR LF between parts, two hyphens and anything at the end) is accepted and told part by part. |
| MultipartGrammar.AcceptsExactly | src/cgi-io/multipart_parser.c:114-312 | Input is accepted if and only if it is the beginning of a word of that grammar, for every boundary whose delimiter is restartable; other input is refused at the end of the longest beginning of it that is, which covers every refusal after a delimiter, the CR of a line and a final hyphen. |
| UploadNames.DispositionExactly | src/cgi-io/main.c:282-287 | A header is looked at if and only if its name is `Content-Disposition` in any case, or the beginning of it. |
| UploadNames.PartExactly | src/cgi-io/main.c:289-318 | Its value names a part if and only if it is `form-data` and `name="` in any case, with blanks and semicolons between, a name and a quote; any other value leaves the part what it was. |
| UploadNames.CalledExactly | src/cgi-io/main.c:310-312 | Which name means which part: each of the four, cut anywhere, or with a NUL behind it; what several begin with is the last of them. |
| UploadTokens.HeadingIsTold | src/cgi-io/main.c:282-318 | As long as no callback has failed, the kind of the current part follows from the header names and values told, however data was sliced. |
| UploadTokens.RunWalks | src/cgi-io/multipart_parser.c:222-301 | As far as input is accepted, headers, data and part ends are told in their places: data only between the end of the headers and the end of the part. |
| UploadTokens.NothingWritten | src/cgi-io/main.c:320-424 | As long as no callback has failed, the temporary file exists and data has come only while file data is being told. |
| UploadTokens.TurnedDown | src/cgi-io/main.c:320-390 | A call that is turned down before there is file data is the end of a session id that may not upload; nothing is written and the client is told of a failure. |
| UploadRuns.MainUpload | src/cgi-io/main.c:470-500 | The upload program with its own callbacks: the calls made are a prefix of what the request tells, the whole of it unless a callback has answered, and at most one answer is given. |
| UploadRuns.DataWritten | src/cgi-io/main.c:343-379 | Once the temporary file is open, any slicing of the data into callbacks, empty slices included, writes exactly the data, and no callback fails. |
| UploadRuns.BodyAcrossChunks | src/cgi-io/multipart_parser.c:222-268 | With all headers in the first chunk, the data up to the first delimiter and the end of the part are told, however the rest is cut. |
| UploadRuns.FileWritten | src/cgi-io/main.c:320-424 | If the first chunk reaches the blank line of the first part whose headers make it file data, then however the rest is cut: an earlier part was turned down and nothing is written; or the session may not write the file and nothing is; or exactly the bytes up to the first delimiter are, and the client is told of success if there were any. |
| UploadForms.HeadExact | src/cgi-io/multipart_parser.c:222-268 | The parts before the file data, free of CR and in one chunk, lead to exactly one data call each: the calls are determined by the form. |
| UploadForms.FormWritten | src/cgi-io/main.c:282-500 | Any printed form, its parts before the file data in the first chunk and the rest cut anyhow: the file is stored in full, for the path and with the mode text they give, if those parts name a session that may upload and a path it may write, and nothing is otherwise, the client being told which; the buffer of a path is run over exactly if the upload gets to an empty file name. |
| UploadForms.StandardForm | luci/luci-base/htdocs/luci-static/resources/ui.js:2745-2751 | The same for the form of the file browser, session id, file name and file with its media type: a session that may not upload stores nothing; otherwise an empty path runs over its buffer, and any other is stored exactly if the session may write its canonical form. |
| UciStore.Uci.constructor | luci/luci-base/htdocs/luci-static/resources/uci.js:17-28 | Nothing is staged for freshly loaded configurations. |
| UciStore.Uci.Add | luci/luci-base/htdocs/luci-static/resources/uci.js:276-292 | A new section enters the created ones with its metadata and the next index; nothing else changes. |
| UciStore.Uci.Remove | luci/luci-base/htdocs/luci-static/resources/uci.js:303-322 | A created section is dropped; a loaded one loses its changes and is marked for deletion as a whole. |
| UciStore.Uci.Get | luci/luci-base/htdocs/luci-static/resources/uci.js:451-485 | One option reads as in the plain configuration the overlay stands for. |
| UciStore.Uci.GetSection | luci/luci-base/htdocs/luci-static/resources/uci.js:487-516 | A whole section reads as in the plain configuration, each of its options as if asked for alone, and is there exactly if the section is live; the loaded copy takes on what is pending for it. |
| UciStore.Uci.Set | luci/luci-base/htdocs/luci-static/resources/uci.js:539-607 | The four maps after a value is set or an option is unset. |
| UciStore.AddRefines | luci/luci-base/htdocs/luci-static/resources/uci.js:276-292 | Adding a section adds it to the plain configuration, and hides no loaded one exactly if none of that name is live. |
| UciNamed.AddShows | luci/luci-base/htdocs/luci-static/resources/uci.js:276-292 | Readers of a section just added get its type, its name, whether it is anonymous, the next index, `.create` exactly if it was given a name, and no option. |
| UciStore.RemoveRefines | luci/luci-base/htdocs/luci-static/resources/uci.js:303-322 | Removing a section removes it from the plain configuration unless a created section hid a loaded one, which then comes back: exactly then it does not. |
| UciStore.SetRefines | luci/luci-base/htdocs/luci-static/resources/uci.js:539-607 | Setting and unsetting do what is documented in every case but one, the empty string in a created section; changes and deletions stay disjoint and deletion marks nonempty. |
| UciStore.SetStores | luci/luci-base/htdocs/luci-static/resources/uci.js:550-555 | In a created section only null removes an option; the empty string is stored and read back. |
| UciStore.GetSectionRefines | luci/luci-base/htdocs/luci-static/resources/uci.js:487-516 | Rewriting the loaded copy while reading a section changes nothing a reader can see. |
| UciRuns.Perform | luci/luci-base/htdocs/luci-static/resources/uci.js:276-798 | Each operation on the store itself, moves included, answers as the plain configuration would. |
| UciRuns.RunRefines | luci/luci-base/htdocs/luci-static/resources/uci.js:276-798 | Over any session of add, remove, set, unset, both kinds of get and move the overlay stands for the plain configuration after the same session, in which an empty string set in a created section is stored. |
| UciRuns.Session | luci/luci-base/htdocs/luci-static/resources/uci.js:276-798 | The store run through any such session gives every reader the plain configuration's replies. |
| UciSave.SplitSection | luci/luci-base/htdocs/luci-static/resources/uci.js:842-849 | A created section is split into its type, its given name and its options, metadata left out. |
| UciSave.Save | luci/luci-base/htdocs/luci-static/resources/uci.js:810-865 | The calls are the deletions, then the additions, then the changes, one for each entry of the three maps, in whatever order a map is walked. |
| UciSave.SaveIsExact | luci/luci-base/htdocs/luci-static/resources/uci.js:810-865 | Applying those calls to the remote configuration gives exactly what readers see, new unnamed sections renamed, if and only if every difference of the loaded copy is on record. |
| UciSave.SessionSaves | luci/luci-base/htdocs/luci-static/resources/uci.js:810-865 | After any session without whole-section reads and moves, saving makes remote exactly the plain configuration of that session. |
| UciSave.MergedDeletionIsLost | luci/luci-base/htdocs/luci-static/resources/uci.js:499-510 | Unset, read the section, set, unset: readers see the option gone, but no pending change or deletion records it. |
| UciLost.SessionSavesExactly | luci/luci-base/htdocs/luci-static/resources/uci.js:487-865 | After any session, reads of whole sections and moves included, saving makes remote exactly the plain configuration of that session if and only if it loses no loaded option, which is told from its operations alone: one is lost if at the end its section is there, a whole-section read or a move took it out of the loaded copy after it was unset, and a later set and unset left nothing pending for it. |
| UciNamed.NewSectionsSaved | luci/luci-base/htdocs/luci-static/resources/uci.js:276-865 | After any session every section it added that is still there is saved as it reads: one added with a name at that name, one added without at the name the remote end gives it, which of them that is being told from the operations. |
| UciNamed.NamedSessionSaves | luci/luci-base/htdocs/luci-static/resources/uci.js:276-865 | The whole remote configuration is then that of the session, named sections under their names, if and only if no loaded option is lost. |
| UciOrder.SectionsOf | luci/luci-base/htdocs/luci-static/resources/uci.js:392-424 | All live sections of the configuration, once each, by ascending index, each shown with its pending changes but without its pending deletions, and with its position as index. |
| UciOrder.OrderIsUnique | luci/luci-base/htdocs/luci-static/resources/uci.js:392-424 | If all indices differ, only one list of the sections is in that order. |
| UciOrder.Move | luci/luci-base/htdocs/luci-static/resources/uci.js:756-798 | A move succeeds exactly if both sections are listed and differ; then what readers see is the old configuration with the sections numbered by the new list, which is the old one with the section taken out and put before or after the other, or at the end; otherwise nothing changes. |
| UciOrder.IndexRefines | luci/luci-base/htdocs/luci-static/resources/uci.js:792-793 | Writing an index through a whole-section read, which folds pending changes into the loaded copy, changes that index and nothing else a reader can see. |
| UciOrder.OnlyIndices | luci/luci-base/htdocs/luci-static/resources/uci.js:792-793 | Numbering changes no option of any section, and no other configuration at all. |
| UciOrder.ReindexedOrder | luci/luci-base/htdocs/luci-static/resources/uci.js:756-798 | After a move the new list is the order of the configuration, and all indices differ. |
| UciOrder.MovePermutes | luci/luci-base/htdocs/luci-static/resources/uci.js:756-798 | The new order holds the same sections, each once. |
| UciOrder.CopyExactly | luci/luci-base/htdocs/luci-static/resources/uci.js:402-410 | A section is shown by `sections` as it reads if and only if it is new or no option marked for deletion is still in its loaded copy. |
| UciSessions.AddedLast | luci/luci-base/htdocs/luci-static/resources/uci.js:283-289 | A section that is added comes last if and only if no index is above the one it gets. |
| UciSessions.MoveRoomy | luci/luci-base/htdocs/luci-static/resources/uci.js:756-798 | A move keeps indices different and below the next one `add` gives out, as long as there are no more than 1000 sections besides those added; the new order is the moved list. |
| UciSessions.RunRoomy | luci/luci-base/htdocs/luci-static/resources/uci.js:276-798 | Every session keeps that. |
| UciSessions.MovesAllowed | luci/luci-base/htdocs/luci-static/resources/uci.js:276-798 | In such a configuration sections can be moved at any point of a session. |
| UciSessions.AlwaysLast | luci/luci-base/htdocs/luci-static/resources/uci.js:276-798 | Whenever a section is added in a session, it comes last. |
| Firewall.Rules.AddZone | luci/luci-base/htdocs/luci-static/resources/firewall.js:83-101 | A zone is added exactly if its name is well formed and looks up no zone, after a defaults section if there was none. |
| Firewall.Rules.RemoveWhere | luci/luci-base/htdocs/luci-static/resources/firewall.js:145-168 | Walking a copy of the sections and removing by identifier removes exactly the sections that meet the condition, in order, and reports whether there were any. |
| Firewall.Rules.DeleteZone | luci/luci-base/htdocs/luci-static/resources/firewall.js:135-173 | The zone goes by section name or else by zone name, and with it every rule, redirect and forwarding from or to its name. |
| Firewall.Rules.RenamePass | luci/luci-base/htdocs/luci-static/resources/firewall.js:183-209 | One pass over a copy renames each section where it stands and no other. |
| Firewall.Rules.RenameZone | luci/luci-base/htdocs/luci-static/resources/firewall.js:175-213 | Zones of the old name and all references to it get the new name, if the new one is well formed and free. |
| Firewall.Rules.AddForwardingTo | luci/luci-base/htdocs/luci-static/resources/firewall.js:385-402 | A forwarding to another zone is added unless the zones are the same or it exists; the caller gets one back exactly if one is added. |
| Firewall.Rules.AddForwardingFrom | luci/luci-base/htdocs/luci-static/resources/firewall.js:404-421 | The same from another zone. |
| Firewall.Rules.DeleteForwardingsBy | luci/luci-base/htdocs/luci-static/resources/firewall.js:423-439 | The complete forwardings from or to the zone go; the caller is told whether there were any. |
| Firewall.Rules.DeleteForwarding | luci/luci-base/htdocs/luci-static/resources/firewall.js:441-453 | The section goes if it is a forwarding, and the caller is told whether it is. |
| FirewallEffects.NameCharacters | luci/luci-base/htdocs/luci-static/resources/firewall.js:83-86 | A zone name is well formed if and only if it is one or more letters, digits and underscores. |
| FirewallEffects.LooksUp | luci/luci-base/htdocs/luci-static/resources/firewall.js:34-50 | A zone section of the identifier is found first, otherwise the first zone that has the name. |
| FirewallEffects.DeletesBySid | luci/luci-base/htdocs/luci-static/resources/firewall.js:135-173 | Deleting a zone by its identifier leaves, in order, exactly the sections that are neither that zone nor a rule, redirect or forwarding from or to its name. |
| FirewallEffects.DeletesByName | luci/luci-base/htdocs/luci-static/resources/firewall.js:135-173 | Deleting by a name that is no identifier of a zone leaves exactly those that are neither a zone of that name nor a rule, redirect or forwarding from or to it; without such a zone nothing goes. |
| FirewallEffects.RenamesExactly | luci/luci-base/htdocs/luci-static/resources/firewall.js:175-213 | If the new name is well formed and free and a zone has the old one, then the new name stands exactly where the old one did, as name of a zone and as source or destination of a rule, redirect or forwarding; otherwise nothing changes. |
| FirewallEffects.DeletesForwardings | luci/luci-base/htdocs/luci-static/resources/firewall.js:423-439 | The forwardings with both ends that have the name of the zone at the given end go, and no others. |
| FirewallEffects.DeletesOne | luci/luci-base/htdocs/luci-static/resources/firewall.js:441-453 | Only that section goes, and only if its kind is forwarding. |
| FirewallEffects.ForwardsBetween | luci/luci-base/htdocs/luci-static/resources/firewall.js:385-421 | One forwarding comes last, from the zone to the other or from the other to the zone, unless both have the same name or a forwarding with these ends exists. |
| FirewallRuns.DeleteZoneSound | luci/luci-base/htdocs/luci-static/resources/firewall.js:135-173 | Deleting a zone leaves no forwarding that names a zone no longer there. |
| FirewallRuns.RenameSound | luci/luci-base/htdocs/luci-static/resources/firewall.js:175-213 | Renaming keeps names distinct, references valid, and forwardings apart. |
| FirewallRuns.RunSound | luci/luci-base/htdocs/luci-static/resources/firewall.js:83-453 | Over every run, calls on objects of zones that are gone included: zone names are distinct, the ends a forwarding has name existing zones, and of the forwardings with both ends none joins a zone to itself and no two join the same pair. |
| FirewallRuns.ForwardWhole | luci/luci-base/htdocs/luci-static/resources/firewall.js:385-421 | A forwarding is added with both ends exactly if both zones have a name. |
| FirewallRuns.StepFullySound | luci/luci-base/htdocs/luci-static/resources/firewall.js:83-453 | One operation keeps all zones named, distinctly, and all forwardings complete, between existing, different zones, each pair once, if and only if it is not a forwarding asked for by the object of a zone that is gone. |
| FirewallRuns.RunFullySound | luci/luci-base/htdocs/luci-static/resources/firewall.js:83-453 | Over every run without such a call all of that holds. |
| FirewallRuns.StaleTwice | luci/luci-base/htdocs/luci-static/resources/firewall.js:385-402 | Asked twice, the object of a zone that is gone adds two forwardings without a source to the same zone. |
| FirewallRuns.ForwardUndone | luci/luci-base/htdocs/luci-static/resources/firewall.js:385-453 | Deleting a forwarding just added restores the configuration. |
| FirewallRuns.AddZoneUndone | luci/luci-base/htdocs/luci-static/resources/firewall.js:83-173 | Deleting a zone just added restores the configuration, but for the defaults section, if and only if no rule or redirect mentioned its name before. |
| FirewallRuns.RenameBack | luci/luci-base/htdocs/luci-static/resources/firewall.js:175-213 | Renaming a zone and back restores the configuration if and only if the old name is well formed and not a zone's section name, and no rule or redirect mentioned the new name. |
| FirewallStore.ProjectIs | luci/luci-base/htdocs/luci-static/resources/firewall.js:34-50 | A section is found in the firewall's list exactly if the store has it, with the kind and the texts that readers see. |
| FirewallStore.AddProjects | luci/luci-base/htdocs/luci-static/resources/uci.js:276-292 | `add` puts an empty section at the end of the firewall's list. |
| FirewallStore.SetProjects | luci/luci-base/htdocs/luci-static/resources/uci.js:539-607 | `set` and unset do to the list what they do to the section, an empty string in a loaded section apart. |
| FirewallStore.RemoveProjects | luci/luci-base/htdocs/luci-static/resources/uci.js:303-322 | `remove` takes the section out of the list. |
| FirewallStore.StepMakes | luci/luci-base/htdocs/luci-static/resources/firewall.js:83-453 | Each operation, as the calls it makes to the store (a `set` or a `remove` for each section of the copy that meets its condition, an `add` and its settings), does to the list what it is specified to do. |
| FirewallStore.RunOnStore | luci/luci-base/htdocs/luci-static/resources/firewall.js:83-453 | Over any run of operations, from any state of the store without pending deletions of options, the firewall configuration readers see is the list the run leaves, and so is what `sections` shows. |
| FirewallStore.Apply | luci/luci-base/htdocs/luci-static/resources/firewall.js:83-453 | One operation on the store itself, its calls made from the list `sections` shows: what readers then see is the list the operation is specified to leave, and the next one can follow. |
| FirewallStore.RunSoundOnStore | luci/luci-base/htdocs/luci-static/resources/firewall.js:83-453 | The joint invariant of zones and forwardings holds of the configuration in the store over every run. |
| FirewallStore.RunSaves | luci/luci-base/htdocs/luci-static/resources/uci.js:810-865 | Saving after a run of firewall operations makes remote exactly what the run leaves: no deletion is lost, although sections are read as a whole. |
| FirewallStore.RulesOf | luci/luci-base/htdocs/luci-static/resources/uci.js:392-424 | What `sections` shows the firewall is what readers of options get if and only if no text marked for deletion is still in its section. |
| FirewallStore.DeletedNameIsFound | luci/luci-base/htdocs/luci-static/resources/firewall.js:34-50 | A zone whose name was deleted is still looked up under that name, though no reader sees it. |
| UrlEncoding.UrlDecode | src/cgi-io/util.c:248-286 | The decoded string replaces the encoded one in place, no byte outside changes, and decoding fails exactly for an incomplete escape. |
| UrlEncoding.DecodeEncode | luci/luci-base/htdocs/luci-static/resources/fs.js:417 | Decoding what `encodeURIComponent` makes of any bytes gives those bytes. |
| UrlEncoding.EncodesExactly | luci/luci-base/htdocs/luci-static/resources/fs.js:417 | `encodeURIComponent` leaves letters, digits and `-_.!~*'()` as they are and writes every other byte as a percent sign and two capital hexadecimal digits. |
| UrlEncoding.DecodesExactly | src/cgi-io/util.c:248-286 | A text decodes to given bytes if and only if it writes them one by one: a byte as itself, a blank as a plus sign, or any byte as a percent sign and its two hexadecimal digits, each in either case. |
| FormFields.FindFields | src/cgi-io/util.c:85-114 | Every name gets the position after the last equals sign of a pair of that name, the search ending with the pair by which there were as many hits as names, and every value found is terminated in the buffer. |
| FormFields.PostdecodeFields | src/cgi-io/util.c:85-127 | Each value is decoded where it lies without touching another, or the whole form is refused. |
| FormRoundTrip.FieldOfPrinted | src/cgi-io/util.c:85-127 | In any printed form, with repeated and unknown names, a field is the last pair of its name among those looked at, decoded. |
| FormRoundTrip.NothingDropped | src/cgi-io/util.c:107-108 | All pairs are looked at if and only if fewer wanted ones than names come before the last. |
| CommandLine.Measure | src/cgi-io/util.c:24-42 | The first pass counts the words and the bytes they need. |
| CommandLine.Fill | src/cgi-io/util.c:56-77 | The second pass stays inside the area the first one sized, writes the words unescaped and notes where each begins. |
| CommandLine.ParseCommand | src/cgi-io/util.c:12-83 | A vector is returned exactly if the line has a word; it points to each word and ends with a null pointer, and the words still form one string. |
| CommandLine.SplitArgs | src/cgi-io/main.c:746-748 | Cutting before each argument makes every pointer a string of its own, equal to its word. |
| CommandWords.SplitsExactly | src/cgi-io/util.c:12-83 | A line splits into given words if and only if it spells them: characters that are no white space, or any one behind a backslash, with tab, line feed, vertical tab, form feed, carriage return and blank between words, a backslash at the very end standing for itself. |
| ExecRequest.ExecDirect | luci/luci-base/htdocs/luci-static/resources/fs.js:405-420 | The request body is the printed form of the session and the quoted command line. |
| ExecRequest.ExecArguments | src/cgi-io/main.c:714-748 | From a request body in its buffer, through the checks of the session and of the characters of file name and media type, to the split argument vector: the arguments the body stands for, or the status of the first check that fails. |
| ExecRoundTrip.QuoteNext | luci/luci-base/htdocs/luci-static/resources/fs.js:406-412 | The two replacements, one after the other, put one backslash before each backslash and each character ECMAScript calls white space or line terminator, and change nothing else. |
| ExecRoundTrip.Utf8Exactly | luci/luci-base/htdocs/luci-static/resources/fs.js:417 | The bytes sent for a character are those section 3 of RFC 3629 gives it, and no others. |
| ExecRoundTrip.ReadsQuoted | luci/luci-base/htdocs/luci-static/resources/fs.js:406-412 | A quoted argument, in UTF-8, is split back as itself, with no word boundary inside. |
| ExecRoundTrip.CommandWords | src/cgi-io/util.c:12-83 | Splitting the quoted command line gives the arguments that are not empty. |
| ExecRoundTrip.RoundTrip | luci/luci-base/htdocs/luci-static/resources/fs.js:405-420 | Any argument list without NUL, sent and decoded, arrives as its nonempty arguments in order, whatever characters they hold, if the session may execute; without a nonempty one it is refused. |
| ExecRoundTrip.AllArrive | src/cgi-io/main.c:714-748 | The whole list arrives if and only if the session may execute and no argument is empty. |
| ExecRoundTrip.FourFields | src/cgi-io/main.c:714-748 | A form with all four fields, whatever they hold: 403 without access; else 400 if the file name holds anything but letters, digits and ` ()<>@,;:[]?.=%-`, or the media type anything but letters, digits and ` .;=/-`, or the command has no word; else its words. |
| CanonicalPath.CanonicalizePath | src/cgi-io/util.c:190-246 | The result is the text of the destination of the first `len` bytes, in a buffer of their number and one (the loop keeps the write position at or below the read position); nothing is returned if the byte looked at is a NUL; and of no bytes at all the "/" fills the buffer and its NUL is written behind it. |
| CanonicalPath.FitsExactly | src/cgi-io/util.c:176-246 | The canonical form fits the copy of the path if and only if the path is not empty. |
| CanonicalPath.ResolveWalks | src/cgi-io/util.c:203-235 | The destination is where splitting at the slashes and entering component after component leads: empty and "." stay, ".." goes up, never above the root. |
| CanonicalPath.Absolute | src/cgi-io/util.c:190-246 | An absolute path stays absolute, and no component of the result is empty, "." or "..". |
| CanonicalPath.Idempotent | src/cgi-io/util.c:190-246 | A canonical path is its own canonical form, relative paths included. |
| ClassLoader.Loader.constructor | luci/luci-base/htdocs/luci-static/resources/luci.js:2221-2231 | Only the built-in classes are there at first. |
| ClassLoader.Loader.Require | luci/luci-base/htdocs/luci-static/resources/luci.js:2437-2453 | A class not in the table is requested; one in it is an error exactly if it is in the requester's chain. |
| ClassLoader.Loader.Reply | luci/luci-base/htdocs/luci-static/resources/luci.js:2455-2504 | A reply requires the dependencies in order up to the first error, after which the class waits or has failed. |
| ClassLoader.Loader.Settle | luci/luci-base/htdocs/luci-static/resources/luci.js:2506-2542 | A waiting class fails with a failed dependency and is instantiated when all are there. |
| ClassLoading.ReplyFetches | luci/luci-base/htdocs/luci-static/resources/luci.js:2440-2504 | A reply sends one request for each dependency that is not known yet, in the order of the file and behind those already sent, up to the first that is in the chain of requesters. |
| ClassLoading.RunSound | luci/luci-base/htdocs/luci-static/resources/luci.js:2437-2549 | In every run each class is fetched at most once, instantiated at most once and only after its dependencies, and a class that failed cannot be loaded at all. |
| ClassLoading.CycleIsNotLoadable | luci/luci-base/htdocs/luci-static/resources/luci.js:2440-2446 | A DependencyError is raised only for a class that requires itself, directly or through others. |
| ClassLoading.NoErrorWhenLoadable | luci/luci-base/htdocs/luci-static/resources/luci.js:2440-2504 | The reply for a class without cycles and missing files raises no error. |
| ClassLoading.AcyclicLoadsAll | luci/luci-base/htdocs/luci-static/resources/luci.js:2437-2549 | Without cycles nothing ever fails, whatever the order of replies, and at rest every class asked for, directly or as a dependency, exists. |
| ClassLoading.LoadedExactly | luci/luci-base/htdocs/luci-static/resources/luci.js:2437-2549 | On any site, a run at rest has instantiated a requested class if and only if the class needs no cycle and no missing file. |
| ClassLoading.RejectedExactly | luci/luci-base/htdocs/luci-static/resources/luci.js:2440-2456 | A run at rest has rejected a class if and only if the class leads to one that failed for itself in that run, its file missing or a dependency being in its own chain of requesters: rejection spreads to exactly those that need it. |
| ClassCycles.RaisedExactly | luci/luci-base/htdocs/luci-static/resources/luci.js:2437-2484 | Some order of replies to a request for one class raises a DependencyError if and only if there is a path of requirements from it on which no class requires one further on than the next, and whose last class requires one of the path. |
| ClassCycles.OnCycleRejected | luci/luci-base/htdocs/luci-static/resources/luci.js:2437-2549 | A class on a cycle, if it is the only one asked for, is rejected by every run that comes to rest. |
| ClassCycles.MissingRejected | luci/luci-base/htdocs/luci-static/resources/luci.js:2455-2458 | A class that leads to a missing file is rejected by every run that comes to rest. |
| ClassCycles.MayRejectExactly | luci/luci-base/htdocs/luci-static/resources/luci.js:2437-2549 | Some order of replies gets a class rejected if and only if it leads to a missing file or to such a path. |
| ClassLoading.ComesToRest | luci/luci-base/htdocs/luci-static/resources/luci.js:2437-2549 | Left alone the loader comes to rest: at most three events for each class name. |
| ClassLoading.CycleUnnoticed | luci/luci-base/htdocs/luci-static/resources/luci.js:2417-2446 | Two classes requiring each other, both required by a third: no error is raised and all three stay pending. |
| Prng.AddRow | luci/luci-base/htdocs/luci-static/resources/tools/prng.js:9-15 | The inner loop of `mul` adds one shifted partial product. |
| Prng.FitsWord | luci/luci-base/htdocs/luci-static/resources/tools/prng.js:11-13 | Every intermediate of that loop fits 32 bits unsigned, so that the unsigned shift loses nothing. |
| Prng.Mul | luci/luci-base/htdocs/luci-static/resources/tools/prng.js:5-21 | The product of the two numbers modulo 2^64. |
| Prng.Add | luci/luci-base/htdocs/luci-static/resources/tools/prng.js:23-34 | The sum with a one-limb number modulo 2^64. |
| Prng.Shr | luci/luci-base/htdocs/luci-static/resources/tools/prng.js:36-54 | Floor division by 2^n, for every n from 0 to 64. |
| Prng.Generator.Seed | luci/luci-base/htdocs/luci-static/resources/tools/prng.js:57-63 | The state becomes (n - 1) modulo 2^32, negative seeds included. |
| Prng.Generator.Int | luci/luci-base/htdocs/luci-static/resources/tools/prng.js:65-71 | The state becomes x * 0x5851f42d4c957f2d + 1 modulo 2^64, and the value is its top 31 bits. |
| PrngPeriod.SumFactors | luci/luci-base/htdocs/luci-static/resources/tools/prng.js:65-67 | For a multiplier that is 1 modulo 4, 2^k divides the geometric sum of n terms exactly if it divides n. |
| PrngPeriod.Recurs | luci/luci-base/htdocs/luci-static/resources/tools/prng.js:65-67 | A state recurs after n steps if and only if 2^64 divides n. |
| PrngPeriod.FullPeriod | luci/luci-base/htdocs/luci-static/resources/tools/prng.js:65-67 | From any state, 2^64 calls visit 2^64 different states and come back. |
| Ipv6.ParseIPv6 | luci/luci-base/htdocs/luci-static/resources/validation.js:180-225 | The word loops compute what splitting at the gap and at the colons amounts to, a dotted quad standing for two groups. |
| Ipv6RoundTrip.FullForm | luci/luci-base/htdocs/luci-static/resources/validation.js:180-225 | Groups of one to four digits without a gap are read exactly if there are eight. |
| Ipv6RoundTrip.GapForm | luci/luci-base/htdocs/luci-static/resources/validation.js:196-222 | Groups around a gap, either side of which may be empty, are read with zeros in the gap, exactly if at most seven are counted, an empty side counting as one. |
| Ipv6RoundTrip.ShortForm | luci/luci-base/htdocs/luci-static/resources/validation.js:196-222 | An address shortened by a run of zero groups is recovered if and only if the run is not a single group at either end, which section 2.2 of RFC 4291 allows. |
| Ipv6RoundTrip.ReadsExactly | luci/luci-base/htdocs/luci-static/resources/validation.js:180-225 | A text is read as given words if and only if it is eight groups, groups around a gap, or one of these with a valid dotted quad in the place of the last two groups, in full or after a gap. |
| Ipv6RoundTrip.QuadsAreRead | luci/luci-base/htdocs/luci-static/resources/validation.js:181-190 | A text that ends with a dotted quad is read exactly in these forms, as the words before the quad and the two words of the quad. |
| Ipv6RoundTrip.EightWords | luci/luci-base/htdocs/luci-static/resources/validation.js:180-225 | Whatever is read is eight words of 16 bits. |
| Ipv6Digits.GroupsExactly | luci/luci-base/htdocs/luci-static/resources/validation.js:206-222 | The groups of an address are one to four hexadecimal digits of either case, and mean their numbers to the base 16 in order. |
| Ipv6Digits.QuadsExactly | luci/luci-base/htdocs/luci-static/resources/validation.js:170-178 | A quad is read as four given numbers if and only if it is four decimal numbers of one to three digits up to 255, in that order, with dots between. |
| DatatypeCompiler.Compile | luci/luci-base/htdocs/luci-static/resources/validation.js:96-160 | The loop and its recursion compute the scan they are specified by. |
| DatatypeRoundTrip.CompilesArgs | luci/luci-base/htdocs/luci-static/resources/validation.js:96-160 | Compiling a printed list of expressions (nested calls, numbers, text in either kind of quotes with escaped commas, parentheses and backslashes, blanks around every part) gives their flat form, unless blanks follow a closing parenthesis at some depth: then, and only then, it is a syntax error. |
| DatatypeRoundTrip.CompilesLabel | luci/luci-base/htdocs/luci-static/resources/validation.js:118-139 | What a label on its own compiles to, in whatever spelling (each character as it is or behind a backslash, which stays at the end of a line): a number, the text between two quotes that match, a validator, or a syntax error; blanks around it fall away, and of blanks alone it is a syntax error. |
| DatatypeRoundTrip.MismatchedQuotes | luci/luci-base/htdocs/luci-static/resources/validation.js:128-129 | A text between two different quotes is a syntax error, unless it is a number or a name. |
| DatatypeRoundTrip.LiteralTakesNoArgs | luci/luci-base/htdocs/luci-static/resources/validation.js:147-150 | Arguments after a number or a text are a syntax error. |
| DatatypeRoundTrip.UnclosedLosesArgs | luci/luci-base/htdocs/luci-static/resources/validation.js:112-146 | Without its closing parenthesis a validator is compiled without its arguments. |
| DatatypeRoundTrip.EscapeAtEnd | luci/luci-base/htdocs/luci-static/resources/validation.js:96-116 | A backslash at the end makes the last label vanish. |
| DatatypeEval.CompiledWellFormed | luci/luci-base/htdocs/luci-static/resources/validation.js:96-160 | Whatever text compiles gives literals and validators with an argument slot each. |
| DatatypeEval.Or | luci/luci-base/htdocs/luci-static/resources/validation.js:452-473 | The loop that steps by one over literals and by two over validators finds whether any argument accepts. |
| DatatypeEval.And | luci/luci-base/htdocs/luci-static/resources/validation.js:475-488 | The same loop finds whether all do. |
| DatatypeEval.FlatMeaning | luci/luci-base/htdocs/luci-static/resources/validation.js:452-488 | On the flat form of a list of expressions `or` is their disjunction and `and` their conjunction. |
| DatatypeEval.Validate | luci/luci-base/htdocs/luci-static/resources/validation.js:8-62 | Whether a value is accepted is told by the compiled code; nothing can be asked, and a TypeError is raised, if and only if the code compiles to nothing or to a list that begins with a literal and the value is not empty. |
| DatatypeEval.ValidatesExactly | luci/luci-base/htdocs/luci-static/resources/validation.js:8-62 | A printed datatype, compiled and applied: if no blanks follow a closing parenthesis it accepts exactly the values its first expression means, or an empty one if the field is optional; with such blanks it does not compile. |

## Left out

- Multipart parser: `s_uninitialized` and the `default` branch (no parser reaches them), a failing `malloc`, callbacks that call the parser again, and the length of header slices beyond what the callbacks are told.
- MultipartParser.Parser.Execute: a callback that fails leaves phase and index unstated; nothing reads them afterwards.
- `main_upload`: files, links, permissions and checksums succeed; who may upload and write what are parameters; `init_parser` and the environment are not modelled; header values cut by a chunk are taken at their slice.
- UploadRuns.FileWritten: leaves session id and file name as the callbacks hold them at the blank line; what they are follows from the form in `UploadForms.FormWritten`.
- MultipartGrammar.AcceptsExactly: is for boundaries whose delimiter is restartable; for others `MultipartMatching.MatcherIsExact` says that the data of a part need not end at a delimiter.
- UploadForms.FormWritten: leaves the file mode as the text it is read from (`strtoul`, and 0600 without one, are not part of the model). It is for forms whose parts before the file data hold no CR and lie in the first chunk; otherwise the callbacks keep the last slice of a session id or file name.
- UCI store: extended identifiers such as `@type[0]`, filtering and callbacks of `sections`, the order call, loading, unloading and applying; nested objects are maps keyed by configuration and section, so option names like `__proto__` and callers that alter a returned section object are not covered.
- UCI store: `createSID` is the caller's choice of an unused identifier; the remote end of `save` is a model that applies each call to a plain configuration and names unnamed sections.
- UciOrder.SectionsOf: is for a loaded configuration whose sections are known by the names they are listed under; for one that is not loaded `sections` returns nothing.
- UciRuns.RunRefines: a section is added only under a name not in use; `UciStore.AddRefines` and `UciStore.RemoveRefines` say what happens otherwise. Sections are moved in configurations whose indices are different numbers, as `UciSessions.RunRoomy` keeps them; `UciOrder.Move` is for equal ones too.
- Firewall: options that hold lists are not seen; `newZone`, networks, and adding rules and redirects are left out, and the policies a new zone takes from the defaults are a parameter.
- FirewallStore.StepMakes: the calls are those that change the store and those that read whole sections; reads of single options, which change nothing, are not listed.
- Firewall: a zone object stands for a zone section or for one that is gone, not for a section of another kind that got its identifier; null arguments are left out.
- Exec pipeline: the `latin1` branch, strings with unpaired surrogates, reading the request from the environment, looking up the executable, whether the session may run that command, and what `main_exec` does after a form was refused.
- FormFields.PostdecodeFields: is for field names that differ, as those of its callers do.
- CanonicalPath.CanonicalizePath: there is a byte to look at behind an empty range; a null pointer and a failing allocation are left out, as is what happens after the buffer was run over.
- Class loader: the scanner that finds require statements in a source, errors while evaluating or constructing a class, and network failures other than a missing file.
- Random numbers: `get` and `derive_color`, which use floating point.
- DatatypeCompiler.Compile: which tokens JavaScript takes for numbers, and what number they are, is a parameter; names every JavaScript object has are not taken for validators.
- DatatypeEval.ValidatesExactly: is for validators that leave the value alone; error texts, `neg`, `list` and the individual validators are left out.
- Ipv6.ParseIPv6: strings are sequences of characters; `parseIPv4` is modelled as far as `parseIPv6` needs it.
- The menu trees of `dispatcher.lua`, templates, shell scripts and the user interface.
