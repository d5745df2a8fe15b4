# Verified model of AgBlogger's stateful cores

AgBlogger is a blog engine that keeps posts as markdown files and mirrors them in a database. This project
models the parts of it whose correctness depends on state, order or interleaving, and proves what each of them
is for. `dafny verify dfyconfig.toml` checks everything.

| modules | what they model |
|---|---|
| `LabelDag`, `LabelCache` | breaking cycles in the label graph by an iterative depth-first search, and the label part of the cache rebuild |
| `Html`, `Sanitizer`, `SanitizerMachine`, `SanitizerTree`, `SanitizerLaws`, `SanitizerValues`, `SanitizerTwice` | the allowlist sanitizer for rendered HTML: an object with a stack of open tags, the recursive pruning it refines, and the values it writes, character by character |
| `UrlPath`, `UrlRewriter`, `UrlRewriteLaws`, `UrlTargets`, `UrlRewriteTwice` | rewriting relative URLs in rendered HTML |
| `KeypairLock`, `KeypairProgress` | creating one keypair file among concurrent callers, file-system call by file-system call: when it is safe, and who returns |
| `TokenRotation`, `TokenAnswers` | concurrent logins, refreshes, logouts and revocations against the refresh-token table |
| `JsonString`, `EnvFile`, `EnvLines`, `EnvRoundTrip`, `EnvSettings` | writing and reading back the deployment's `.env` file |
| `OAuthStateStore` | the bounded store of pending Bluesky logins |
| `AssetQuota` | storage accounting of the asset endpoints |
| `Frontmatter`, `PostIndex` | the full-text index kept up to date request by request, against the one a rebuild would make |
| `AdminBootstrap` | collapsing all admin rows into the configured one at start-up |
| `SyncJournal`, `SyncRollback`, `SyncConvergence`, `SyncAnswers`, `SyncCommit` | the undo journal of a sync commit, convergence of client and server, and what the client is answered |
| `SentinelMask`, `SentinelMaskTwice`, `SentinelLines`, `SentinelFootnotes`, `SentinelScanner`, `SentinelScanLaws` | the source scanner of the preview's scroll sync |
| `SentinelShapes`, `SentinelGrammar`, `SentinelParse`, `SentinelDocuments` | markdown documents as the elements they are written from, and the blocks that the scanner finds in them |
| `SentinelFinder`, `SentinelFinderMachine`, `SentinelFinderTree`, `SentinelInjector`, `SentinelErase`, `SentinelOrder`, `SentinelPlaces`, `SentinelPreview` | finding blocks in the rendered HTML and marking them with source lines |
| `Options`, `PyText`, `Splitting`, `StableSort` | host-language operations: missing values, strings, splitting, the stable sort |

Code that works by changing state is modelled by classes, arrays and loops, proved against specification functions
on values; the properties are then proved of those functions. Concurrent protocols are state machines whose turns
are the single file-system calls or transactions.

Some natural statements are false of the code. For these there is a lemma with the input that refutes them, and the
exact condition under which they hold:

* storing the label edges, `LabelCache.ParentNamedTwice` and `LabelCache.RebuildLabels`;
* idempotence of sanitizing, `SanitizerTwice.LineBreakInParagraph` and `SanitizerTwice.SanitizingTwice`;
* idempotence of URL rewriting, `UrlRewriteTwice.ApostropheInSlug`, `UrlRewriteTwice.RewriteTwiceIff` and
  `UrlRewriteTwice.OnlyValuesChangeIff`;
* that URLs starting with `//` are refused, `Sanitizer.DoubleSlashIsSafe` and `Sanitizer.DoubleSlashPasses`: none is;
* the keypair promise, `KeypairLock.UnsafeFromLeftOverLock` and the other `Unsafe` lemmas, and
  `KeypairLock.SafeExactlyWhen`;
* that a logout ends the login, `TokenAnswers.LoginOutlivesLogout` and `TokenAnswers.LogoutOvertaken`;
* recovery of secrets from the `.env` file, `EnvRoundTrip.BrokenSizeOverrides` and `EnvRoundTrip.RecoversIff`;
* exact usage after a deletion or a failed asset write, `AssetQuota.ContentStore.DeleteAsset`,
  `AssetQuota.ContentStore.UploadAssets` and, over a run, `AssetQuota.DriftOverRun` and `AssetQuota.AccurateAfterRunIff`;
* agreement of the full-text index with a rebuild, `PostIndex.AlwaysInSyncIffFaithful`;
* rollback of a sync commit, `SyncRollback.AliasedUploads`, `SyncRollback.SlashedDeletionIsLost` and
  `SyncRollback.AlwaysUndoneIff`;
* convergence of a sync commit, `SyncConvergence.SharedPlaceDiverges`, `SyncConvergence.FailedRewriteDiverges` and
  `SyncConvergence.AlwaysConvergesIff`;
* idempotence of masking code, `SentinelMaskTwice.EscapedTick` and `SentinelMaskTwice.MaskingTwiceIff`.

## Model

| member | source | states |
|---|---|---|
| `LabelDag.BreakCycles` | backend/services/dag.py:8-60 | For every edge list and every order in which start labels are picked: accepted and dropped edges together are the input as a multiset, the accepted ones have no cycle, each dropped edge would close one (an accepted path leads from its parent back to its child), and nothing is dropped exactly if the input had no cycle. |
| `LabelDag.Explore` | backend/services/dag.py:35-60 | One outer turn of the search, with its explicit stack: it ends with the stack empty, keeps the search invariant, and only ever takes labels away from the unvisited ones. |
| `LabelDag.BuildAdjacency` | backend/services/dag.py:24-29 | The adjacency lists hold, for each child, its parents in input order, duplicates included. |
| `LabelDag.DecideStep` | backend/services/dag.py:43-55 | Looking at one parent keeps the invariant whatever its colour, and either uses up an unvisited label or leaves the stack height alone: the termination measure. |
| `LabelDag.FinishStep` | backend/services/dag.py:56-58 | Taking a worked-off frame from the stack keeps the invariant; the label gets the next finish rank. |
| `LabelDag.RankedIsAcyclic` | backend/services/dag.py:11-16 | Edges that all point to a label of smaller finish rank form no cycle. |
| `LabelDag.Finished` | backend/services/dag.py:35-60 | A finished search has split its input exactly, into an acyclic part and edges that each close a cycle. |
| `LabelDag.DropsNothingIffAcyclic` | backend/services/dag.py:11-16 | Maximality: any such split drops nothing exactly if the input is acyclic. |
| `LabelDag.SameParentsSameEdges` | backend/services/dag.py:24-29 | Grouping edges by child loses none of them: equal parent lists mean equal multisets of edges. |
| `LabelCache.RebuildLabels` | backend/services/cache_service.py:62-113 | The rebuild succeeds if and only if every edge that is listed more than once is dropped: the edge table's key refuses a second row, and then both tables stay as they were. A rebuild that succeeds has the configured labels and the parents they mention, the latter marked implicit; every configured edge is stored or reported; the stored edges are distinct, acyclic and join different rows. An edge listed twice that is on no cycle always makes it fail. |
| `LabelCache.StorableIff` | backend/models/label.py:40-57 | For every split of the edges that the cycle breaking can return, the accepted edges are distinct if and only if no accepted edge is listed twice. |
| `LabelCache.ParentNamedTwice` | backend/filesystem/toml_manager.py:160-170 | The real input: a label whose `parent` is also among its `parents` has an edge listed twice, which every split accepts. |
| `LabelCache.AddParents` | backend/services/cache_service.py:89-100 | Every parent of a configured label gets a row, implicit exactly if it is not configured, and all edges are collected in order. |
| `LabelCache.AllEdgesMembers` | backend/services/cache_service.py:92-100 | An edge is collected exactly if some configured label lists that parent. |
| `LabelCache.NoSelfLoops` | backend/models/label.py:53-54 | An acyclic edge list meets the table's constraint that a label is not its own parent. |
| `Html.EscapeRoundTrip` | backend/pandoc/renderer.py:179-180 | Reading the five character references back undoes the escaping of text and attribute values. |
| `Sanitizer.FilterAttrsSound` | backend/pandoc/renderer.py:191-221 | Every attribute that is written is allowed for its tag, carries a value that passes the check for its name, and comes from an attribute of that name in the input. |
| `Sanitizer.OutputPermitted` | backend/pandoc/renderer.py:142-189 | For every event sequence and policy, everything written is a tag the policy allows with such attributes, escaped text, a reference, or the fixed notice. |
| `Sanitizer.HarmlessPasses` | backend/pandoc/renderer.py:191-221 | The filter is not stricter than that: an allowed, stripped, fitting attribute passes unchanged. |
| `Sanitizer.DoubleSlashIsSafe` | backend/pandoc/renderer.py:103-120 | A URL whose stripped form starts with `//` is taken for safe, whatever the rest, the scheme function and the flag: the branch that refuses such URLs comes after the one that accepts a leading `/`. |
| `Sanitizer.DoubleSlashPasses` | backend/pandoc/renderer.py:191-221 | Under both policies the attribute filter writes such a link or source, stripped, wherever its name is allowed. |
| `SanitizerMachine.HtmlSanitizer.HandleStartTag` | backend/pandoc/renderer.py:142-156 | The handler appends the strings and pushes the stack entry of the specification step. |
| `SanitizerMachine.HtmlSanitizer.HandleEndTag` | backend/pandoc/renderer.py:158-164 | The handler pops one entry, and writes an end tag only if that entry is the same, non-void tag. |
| `SanitizerMachine.HtmlSanitizer.HandleStartEndTag` | backend/pandoc/renderer.py:166-177 | A self-closing tag leaves the stack alone and writes at most one tag. |
| `SanitizerMachine.HtmlSanitizer.HandleIframe` | backend/pandoc/renderer.py:223-269 | A video iframe becomes the player with fixed attributes, any other one the notice. |
| `SanitizerMachine.HtmlSanitizer.SanitizeAttrs` | backend/pandoc/renderer.py:191-221 | The attribute loop computes the specified filter. |
| `SanitizerMachine.HtmlSanitizer.Feed` | backend/pandoc/renderer.py:142-189 | The handlers together run the specification machine over the whole event sequence. |
| `SanitizerMachine.SanitizeHtml` | backend/pandoc/renderer.py:272-297 | The returned string is the rendering of the pieces the specification machine writes. |
| `SanitizerTree.RunNode` | backend/pandoc/renderer.py:142-189 | The events of one tree node append the serialisation of the pruned node and leave the stack of open tags as it was. |
| `SanitizerTree.SanitizerPrunes` | backend/pandoc/renderer.py:142-269 | Refinement: for every well-nested document, the stack machine writes the serialisation of the recursively pruned tree. Disallowed elements are unwrapped with their children kept, attributes filtered, iframes replaced. |
| `SanitizerLaws.EndTagsMatch` | backend/pandoc/renderer.py:142-164 | For arbitrary event sequences, the end tags written match distinct earlier start tags of the same name, last opened first closed. |
| `SanitizerLaws.TextIsKept` | backend/pandoc/renderer.py:142-269 | For arbitrary event sequences, the text written is the input text, in order, plus the fixed notice where an iframe was replaced by it. |
| `SanitizerTwice.PoliciesAreRegular` | backend/pandoc/renderer.py:272-297 | The two policies in use meet the conditions of the next rows. |
| `SanitizerTwice.EscapedTextIsKept` | backend/pandoc/renderer.py:179-189 | Escaped text, read back character by character and reference by reference, is written as it was. |
| `SanitizerTwice.SanitizingTwice` | backend/pandoc/renderer.py:142-297 | Sanitizing the output again, as the tokenizer reports it, gives the same text if and only if the pruned document has no void element below one that is not void. In any case the text gets no longer. |
| `SanitizerTwice.LineBreakInParagraph` | backend/pandoc/renderer.py:158-164 | The input that refutes idempotence: a paragraph with a line break loses its end tag in the second pass, because the void element's entry stays on the stack. |
| `SanitizerTwice.PruningTwice` | backend/pandoc/renderer.py:142-269 | As an operation on trees, pruning is idempotent. |
| `SanitizerValues.SafeUrlIff` | backend/pandoc/renderer.py:103-120 | A stripped URL passes if and only if it begins with `#`, `/`, `./` or `../`, or no scheme is found in it, or the scheme in lower case is http or https, or mailto or tel where those are let through; an empty one does not. |
| `SanitizerValues.SafeIdIff` | backend/pandoc/renderer.py:32-32 | An id passes if and only if it is a letter followed by letters, digits, colons, underscores and hyphens. |
| `SanitizerValues.SafeStyleIff` | backend/pandoc/renderer.py:33-33 | A style passes if and only if it spells `text-align:`, whitespace, one of the four alignments, whitespace, at most one semicolon, and whitespace. |
| `SanitizerValues.YouTubeSrcIff` | backend/pandoc/renderer.py:36-39 | A video source passes if and only if it is one of three addresses followed by eleven characters of an id and, if anything more, a query. |
| `SanitizerValues.WrittenIff` | backend/pandoc/renderer.py:191-221 | Under both policies, for every tag: an attribute is written if and only if it is allowed for the tag and some attribute of the input asks for it with a value of these forms, or it is a flag without a value. |
| `SanitizerValues.WrittenInOrder` | backend/pandoc/renderer.py:191-221 | Attributes are filtered one by one, so they are written in the order of the input. |
| `SanitizerValues.OutputIsSafe` | backend/pandoc/renderer.py:142-297 | For every event sequence under both policies: no tag that runs, embeds or redirects is written and no event handler, every link, source, id and style has one of the forms above, and every iframe is a player. |
| `SanitizerValues.ExcerptsEmbedNothing` | backend/pandoc/renderer.py:97-100 | In excerpts no image and no iframe is written, whatever the events. |
| `SanitizerValues.TagIsWritten` | backend/pandoc/renderer.py:142-177 | An allowed tag is written, whatever came before it, with exactly the attributes that are allowed and asked for. |
| `SanitizerValues.LinkIsWrittenIff` | backend/pandoc/renderer.py:103-120 | A link is written on an `a` tag if and only if its stripped value has one of the forms, contact schemes included. |
| `SanitizerValues.ImageIsWrittenIff` | backend/pandoc/renderer.py:103-120 | An image's source is written if and only if its stripped value has one of the forms without contact schemes. |
| `SanitizerValues.FirstSource` | backend/pandoc/renderer.py:223-233 | The source of an iframe is the first `src` attribute that has a value. |
| `SanitizerValues.PlayerIsWrittenIff` | backend/pandoc/renderer.py:223-269 | In posts an iframe becomes the player if and only if that source is a video source, and the notice otherwise. |
| `UrlRewriter.ScanFacts` | backend/pandoc/renderer.py:457-457 | Scanning cuts the text into literal characters and matched attributes without losing any, and the cut is the one the pattern makes. |
| `UrlRewriter.ScanPrint` | backend/pandoc/renderer.py:457-457 | Printing such a cut and scanning again finds the same matches. |
| `UrlRewriter.AttrMatches` | backend/pandoc/renderer.py:457-457 | The pattern matches a whole attribute, and takes exactly its name, quote and value. |
| `UrlPath.NormPathDotDot` | backend/pandoc/renderer.py:443-446 | A normalised path has a parent segment only if it starts with one, so the one test made covers all segments. |
| `UrlRewriteLaws.ChangedIsAbsolute` | backend/pandoc/renderer.py:432-455 | Every value that is changed becomes absolute and has no parent segment. |
| `UrlRewriteLaws.NewValueTwice` | backend/pandoc/renderer.py:432-455 | A rewritten value is not rewritten again. |
| `UrlTargets.SkippedStay` | backend/pandoc/renderer.py:412-437 | In every file, absolute values, fragments, and values with one of the schemes data, http, https, mailto and tel are left as they are. |
| `UrlTargets.RelativeGets` | backend/pandoc/renderer.py:415-455 | A value of so many steps up and then some names, with or without `./` before it, in a file of some directories: it is left alone if it leads above the content root, or to a name that begins with two dots; in a post with a directory of its own a target below `posts` gets `/post/` and the target's names, without an `index.md` at the end; any other target gets `/api/content/` and its names. |
| `UrlTargets.DirectoryPostIff` | backend/pandoc/renderer.py:415-431 | A file counts as a post with a directory of its own if and only if it is an `index.md` at least one directory below `posts`. |
| `UrlTargets.DirNameIs` | backend/pandoc/renderer.py:429-429 | The directory of a path is the path without its last component. |
| `UrlRewriteTwice.OnlyValuesChangeIff` | backend/pandoc/renderer.py:415-457 | For every file path: the rewritten text of every HTML has the same matches and the same text around them, if and only if the normalised directory of the file is quote-free or starts with two dots. |
| `UrlRewriteTwice.RewriteTwiceIff` | backend/pandoc/renderer.py:415-457 | For every file path: rewriting is idempotent on every HTML if and only if the same condition holds. |
| `UrlRewriteTwice.WitnessIsRewrittenTwice` | backend/pandoc/renderer.py:415-457 | For every file path that fails the condition, one fixed attribute in the quote that does not come last in the directory is rewritten again by the second pass. |
| `UrlRewriteTwice.ApostropheInSlug` | backend/pandoc/renderer.py:415-457 | The real input: a post whose slug holds an apostrophe, `posts/it's/index.md` for one. |
| `KeypairLock.ExecKeepsInv` | backend/crosspost/atproto_oauth.py:107-185 | Every file-system step of every caller, with `exists`, `stat` and `unlink` of the lock file as steps of their own, keeps the invariant in a sound environment: at most one caller is past the lock while the file is to be made, and everyone who has a key has the one in the file. A file once present never changes. |
| `KeypairLock.SafeFromNothing` | backend/crosspost/atproto_oauth.py:90-185 | From nothing, for any number of callers and any interleaving: all keypairs returned agree with each other and with the file, if no stat, load or write fails, no lock of a running caller gets old, and processes that end early leave no lock that counts as old. |
| `KeypairLock.LeftOverLockBlocks` | backend/crosspost/atproto_oauth.py:124-167 | Behind a lock file that was left over and neither counts as old nor fails to be read, no caller ever makes or returns a keypair. |
| `KeypairLock.UnsafeFromCorruptFile` | backend/crosspost/atproto_oauth.py:109-122 | From a corrupt file the promise fails: a second caller unlinks the first one's new file. |
| `KeypairLock.UnsafeWithReadFaults` | backend/crosspost/atproto_oauth.py:109-122 | It fails if the load of a sound file can fail. |
| `KeypairLock.UnsafeWithLateReadFaults` | backend/crosspost/atproto_oauth.py:109-122 | It fails in the same way when the file had to be made first. |
| `KeypairLock.UnsafeWithStaleJudgements` | backend/crosspost/atproto_oauth.py:124-146 | It fails while there is no file if the lock of a running caller can get old, or a stat of it can fail. |
| `KeypairLock.UnsafeFromLeftOverLock` | backend/crosspost/atproto_oauth.py:124-146 | The lock that the removal exists for: two callers find a left-over lock older than 30 seconds, the first removes it and takes the lock, the second removes the first one's lock, and two keypairs are made. |
| `KeypairLock.UnsafeAfterCrash` | backend/crosspost/atproto_oauth.py:124-146 | The same run after the process that held the lock has ended and its lock has got old. |
| `KeypairLock.UnsafeWithWriteFaults` | backend/crosspost/atproto_oauth.py:124-185 | It fails while there is no file if a write can fail, by interleaving alone: the lock that a caller has just seen is released, its stat raises, and it unlinks the lock of a third caller. |
| `KeypairLock.StoredIsSafeWithStaleJudgements` | backend/crosspost/atproto_oauth.py:90-185 | With a sound file in place and loads that do not fail, neither removed locks nor failing writes nor a lock left over do harm. |
| `KeypairLock.SafeExactlyWhen` | backend/crosspost/atproto_oauth.py:90-185 | The exact condition, both ways, in what the files are at the start and what can go wrong. With a sound file: loads of it do not fail. Without one, behind a left-over lock: that lock can neither count as old nor fail to be read. Without either: the file is not corrupt, no load, write or stat can fail, no lock of a running caller can get old, and no process can end early and leave a lock that gets old. |
| `KeypairProgress.ReturnsOnceStored` | backend/crosspost/atproto_oauth.py:109-185 | Once the file is there, in every interleaving in a sound environment: a caller that waits behind a lock returns the key in the file after two turns of its own, any other after seven at most, if and only if it had not ended or used up its attempts before. |
| `KeypairProgress.HolderStores` | backend/crosspost/atproto_oauth.py:145-185 | In every interleaving the caller that holds the lock while there is no file has made one after three turns of its own. |
| `KeypairProgress.AllReturn` | backend/crosspost/atproto_oauth.py:90-185 | Both together, from nothing: as soon as somebody holds the lock, three turns of that caller and seven of any other let the latter return the key that was made, unless its attempts had run out. |
| `KeypairProgress.FailsOnlyAfterAttempts` | backend/crosspost/atproto_oauth.py:145-166 | Whatever else goes wrong, if no write fails then nobody gives up before its thousand-and-first turn, which is after five hundred attempts at the lock. |
| `TokenRotation.StepKinds` | backend/services/auth_service.py:109-207 | Every turn of every request only removes rows, or adds the first token of a new login, or replaces one live token by a fresh one of the same login. |
| `TokenRotation.ExecKeepsInv` | backend/services/auth_service.py:109-207 | Every turn keeps the invariant that ties rows, logins and exchanges together. |
| `TokenRotation.SingleUse` | backend/services/auth_service.py:136-185 | In every interleaving each refresh token is exchanged at most once, and each login has at most one live token. |
| `TokenRotation.RefreshAnswers` | backend/services/auth_service.py:136-185 | A refresh gets a new token exactly if the presented one is still in the table, unexpired and of an existing user; afterwards the old one is spent and the new one live. |
| `TokenRotation.EndedForGood` | backend/services/auth_service.py:188-207 | Once a login has no live token, none of its descendants ever becomes live again. |
| `TokenRotation.SpentForGood` | backend/services/auth_service.py:136-200 | A token that was exchanged, revoked or expired is never live again. |
| `TokenRotation.RevocationIsFinal` | backend/services/auth_service.py:202-207 | After a revocation commits, whatever runs before or after it, every live token of that user descends from a later login. |
| `TokenAnswers.LoginAnswers` | backend/services/auth_service.py:109-133 | A login answers with its token and adds exactly that one to the live tokens, as the first of a new descent. |
| `TokenAnswers.SelectingSees` | backend/services/auth_service.py:141-148 | Selecting changes nothing in the table, and gives the row that holds the token if there is one. |
| `TokenAnswers.RefreshTakes` | backend/services/auth_service.py:150-185 | The transaction of a refresh: the live tokens afterwards are those before without the one of the selected row, if that has expired or still holds the token, and with the new one exactly if the refresh is granted; it is granted exactly if the row still holds the token, has not expired and has a user. |
| `TokenAnswers.LogoutTakes` | backend/services/auth_service.py:188-199 | The delete of a logout takes away the selected row and no other, whatever token it holds by then. |
| `TokenAnswers.RevocationTakes` | backend/services/auth_service.py:202-207 | A revocation takes away exactly the rows of its user. |
| `TokenAnswers.UserDeletionTakes` | backend/models/user.py:27-53 | Deleting a user takes away exactly the rows of that user. |
| `TokenAnswers.RefreshSucceedsIff` | backend/services/auth_service.py:136-185 | A refresh that nothing comes between gets a new token if and only if the presented one is live, unexpired and of an existing user. |
| `TokenAnswers.LogoutSpends` | backend/services/auth_service.py:188-199 | If the row still holds the token when a logout deletes it, that token is spent, and every other live token stays live. |
| `TokenAnswers.LogoutIsFinal` | backend/services/auth_service.py:188-199 | In every interleaving: a logout that selects a live token and finds its row unchanged spends it for good. It is never live and never exchanged again, whatever runs later, and no other token is touched. |
| `TokenAnswers.LogoutOvertaken` | backend/services/auth_service.py:136-199 | If a refresh came in between, the token it issued survives the logout if and only if its row is not the one selected, and the login has ended if and only if it is. |
| `TokenAnswers.LoginOutlivesLogout` | backend/services/auth_service.py:136-199 | For every user there is such a run: the logout has answered, and the login goes on. |
| `JsonString.LoadsDumps` | tools/deploy_production.py:226-249 | Section 7 of RFC 8259: reading back the ASCII-escaped JSON form gives every string back, surrogate pairs included. |
| `EnvFile.DollarsRoundTrip` | tools/deploy_production.py:226-241 | Escaping the dollar signs is undone exactly, for every text, backslashes before dollar signs included. |
| `EnvFile.QuoteRoundTrip` | tools/deploy_production.py:226-249 | Unquoting a quoted value gives the value back, for every string of Unicode scalar values. |
| `EnvFile.QuotedLineIsRead` | tools/deploy_production.py:236-269 | A line with a name and a quoted value is read as exactly that entry, whatever the value. |
| `EnvFile.ParseExistingEnv` | tools/deploy_production.py:252-269 | The reader's loop computes the line-by-line specification; a missing file gives no entries. |
| `EnvFile.BuildEnvContent` | tools/deploy_production.py:294-334 | The writer's list of lines is the specified text. |
| `EnvRoundTrip.ReadBackEntries` | tools/deploy_production.py:252-334 | Reading the written file gives the four secrets overlaid by what the remaining lines read as. |
| `EnvRoundTrip.RecoversExactlyWhen` | tools/deploy_production.py:252-334 | All secrets are recovered whatever they are, if and only if no remaining line reads as an entry under one of their names. |
| `EnvRoundTrip.RecoversIff` | tools/deploy_production.py:294-334 | The same in the configuration's own fields: if and only if no line after the first one of the bind address, the domain or the size limit, which are written without quotes, reads as an entry under a secret's name. |
| `EnvLines.NoteKeepsLines` | tools/deploy_production.py:304-322 | A comment behind such a value changes neither of its lines' names. |
| `EnvRoundTrip.OneLineValuesRecover` | tools/deploy_production.py:252-334 | In particular whenever these values have no line break. |
| `EnvRoundTrip.BrokenSizeOverrides` | tools/deploy_production.py:328-329 | It fails for every deployment whose size limit has a second line that assigns a secret's name: written unquoted, it overrides the secret. |
| `EnvSettings.HostSettingsReadBack` | tools/deploy_production.py:304-316 | With one-line values, whatever they are: port, debugging and documentation settings read back as their fields, and so does the bind address if it means itself without quotes, with the comment behind it or without. |
| `EnvSettings.ListSettingsReadBack` | tools/deploy_production.py:221-223 | The lists of hosts and proxies read back as their text if and only if that holds nothing that looks like a comment, and decoding it then gives the lists. |
| `EnvSettings.ServiceSettingsReadBack` | tools/deploy_production.py:319-323 | The limits on logins read back as the fixed ones, the analytics switch as its field, and the analytics host as it is, whatever its characters. |
| `EnvSettings.OptionalSettingsReadBack` | tools/deploy_production.py:328-333 | Size limit, password switch and image are in the file if and only if they were given, with the values given; the limit if it means itself without quotes. |
| `EnvSettings.ListRoundTrip` | tools/deploy_production.py:221-223 | Every list of strings comes back from its JSON text. |
| `EnvSettings.NotedIsCut` | tools/deploy_production.py:236-249 | An unquoted value with two spaces and a number sign in it comes back shorter. |
| `OAuthStateStore.Store.Set` | backend/crosspost/bluesky_oauth_state.py:39-55 | Expired entries go, the old entry of the state goes, and the new one is stored unless the user or the store is at its limit. |
| `OAuthStateStore.Store.Get` | backend/crosspost/bluesky_oauth_state.py:57-66 | Returns the data unless it is missing or too old, and forgets an entry that is too old. |
| `OAuthStateStore.Store.Pop` | backend/crosspost/bluesky_oauth_state.py:68-76 | Returns the data in the same way and removes the entry in any case. |
| `OAuthStateStore.Store.Cleanup` | backend/crosspost/bluesky_oauth_state.py:78-83 | Removes exactly the entries that are too old. |
| `OAuthStateStore.RunStaysWithin` | backend/crosspost/bluesky_oauth_state.py:39-83 | Over every sequence of operations the store stays within its total limit and within the limit of each user. |
| `OAuthStateStore.EntryIffStored` | backend/crosspost/bluesky_oauth_state.py:39-83 | An entry is in the store exactly if an operation stored it and none since then replaced, popped or expired it. |
| `OAuthStateStore.LookupIffStored` | backend/crosspost/bluesky_oauth_state.py:57-76 | A lookup returns data exactly if that data was stored in this sense and is not older than the time limit. |
| `OAuthStateStore.PoppedIsGone` | backend/crosspost/bluesky_oauth_state.py:68-76 | Single use: after a pop the state answers nothing until it is stored anew. |
| `OAuthStateStore.RejectedSetDiscards` | backend/crosspost/bluesky_oauth_state.py:39-55 | A rejected set leaves no entry of its state, not even the one that was there before. |
| `AssetQuota.AssetUploadNetDelta` | backend/api/posts.py:113-142 | The change predicted before writing is the exact change of the total size by writing all assets in order, duplicate names included, plus the sizes of the files that could not be read. |
| `AssetQuota.ContentStore.UploadAssets` | backend/api/posts.py:550-578 | From every state of the tracker. A completed upload has written everything, and changes the usage by the change of the total size plus the bytes that went unseen, down to zero at most; what is on disk is within the limit or no more than before, up to what the tracker was too low by. A rejection, which happens exactly if the predicted usage is over the limit, changes nothing. After a failed write the change is off by those bytes and by what became of the failing file. |
| `AssetQuota.ContentStore.DeleteAsset` | backend/api/posts.py:646-671 | From every state of the tracker: the file goes or stays, and the usage changes by the change of the total size, plus the size of the deleted file if that could not be read. |
| `AssetQuota.ContentStore.RenameAsset` | backend/api/posts.py:695-722 | From every state of the tracker: a rename moves the bytes, keeps everything else and the usage, and never overwrites. |
| `AssetQuota.SizeAfterFailure` | backend/api/posts.py:566-576 | A write that fails can change the total only by what became of its own file. |
| `AssetQuota.DriftOverRun` | backend/services/storage_quota.py:131-133 | Over every run of uploads, deletions and renames: the tracker is off by what it was off before, the errors of the requests, and what the clamp at zero has withheld. |
| `AssetQuota.AccurateAfterRunIff` | backend/services/storage_quota.py:131-133 | From an accurate start, if sizes may be unreadable but no failed write leaves a larger file: the tracker is accurate after the run if and only if it was adjusted exactly in every request. |
| `Frontmatter.StoreThenRead` | backend/filesystem/frontmatter.py:76-207 | Storing and reading a valid post keeps title and subtitle, and keeps the body exactly if it has no outer whitespace and does not open with the title as a heading. |
| `Frontmatter.LeadingHeadingIsStripped` | backend/filesystem/frontmatter.py:76-93 | A body that opens with the title as a heading loses that line. |
| `PostIndex.RebuildCache` | backend/services/cache_service.py:129-182 | The rebuilt rows and index agree with the files. |
| `PostIndex.CreateKeepsSync` | backend/api/posts.py:924-946 | After a create, index and files agree if and only if the submitted body reads back unchanged. |
| `PostIndex.CompletedUpdate` | backend/api/posts.py:1078-1168 | After a completed update, with or without a move, they agree if and only if that condition holds and the old text could be read, or was empty. |
| `PostIndex.DeleteInSync` | backend/api/posts.py:186-205 | A deletion keeps them in agreement if and only if the old text could be read or was empty, the delete command of the index did not fail, and the file was removed; the source passes over each of these failures. |
| `PostIndex.FileChanged` | backend/services/cache_service.py:129-182 | A file edited behind the index's back goes unnoticed exactly if it reads the same. |
| `PostIndex.LateUpdateFailure` | backend/api/posts.py:1121-1188 | An update that fails after its file was written leaves them in agreement exactly if the new text reads as the old one. |
| `PostIndex.LateCreateFailure` | backend/api/posts.py:939-946 | A create whose commit fails after the file was written always leaves them out of agreement. |
| `PostIndex.FailedCreate` | backend/filesystem/content_manager.py:185-194 | A create whose write fails leaves them in agreement if and only if it leaves no text at the path. |
| `PostIndex.FailedUpdate` | backend/filesystem/content_manager.py:185-194 | An update whose write fails does so if and only if the file is still there and reads as before: the write truncates the file first. |
| `PostIndex.StrandedUpdate` | backend/api/posts.py:1121-1188 | An update that fails after its directory was moved, and whose move is not undone, leaves them in agreement exactly if there was no move and the new text reads as the old one. |
| `PostIndex.RequestKeepsSync` | backend/api/posts.py:158-205 | For every kind of request and each way it can end, completed, rejected, with a failed write, failed late or stranded, with the old text read or not, the index command and the removal done or not: agreement is kept if and only if the request is faithful, a condition on its text, its outcome and what is on record. |
| `PostIndex.AlwaysInSyncIffFaithful` | backend/api/posts.py:158-205 | Over every sequence of requests with their outcomes: the index equals the rebuilt one after each of them if and only if each is faithful in its state. |
| `PostIndex.PostStore.UpsertPostFts` | backend/api/posts.py:158-183 | The index loses exactly the postings of the values supplied and gains the new one. |
| `PostIndex.PostStore.CreatePost` | backend/api/posts.py:860-946 | The endpoint's steps on file, row and index, in order, for each way it can end; a write that fails may leave anything. |
| `PostIndex.PostStore.UpdatePost` | backend/api/posts.py:994-1188 | The same for updates, whether or not the old text can be read. |
| `PostIndex.PostStore.DeletePost` | backend/api/posts.py:1241-1291 | The same for deletions, with each of the failures that are passed over. |
| `AdminBootstrap.MergeConserves` | backend/services/auth_service.py:230-255 | Moving the stale admins' social accounts leaves the target with its own keys and all of theirs it did not have, pairwise distinct. |
| `AdminBootstrap.MergeKeepsKeys` | backend/services/auth_service.py:230-255 | No account key is lost or gained, and each survives once. |
| `AdminBootstrap.AdminDb.CollapseAdminIdentities` | backend/services/auth_service.py:220-264 | Accounts and cross-posts go to the target, the stale admins and what they still own go. |
| `AdminBootstrap.AdminDb.UpdateAuthorInPosts` | backend/services/auth_service.py:267-305 | Only posts by the old name change, to the new one, and all of them unless a write fails. |
| `AdminBootstrap.NamesToRewrite` | backend/services/auth_service.py:387-395 | The old names collected are exactly those of the admin rows other than the configured one. |
| `AdminBootstrap.AdminDb.SyncAdmin` | backend/services/auth_service.py:331-448 | The chosen row becomes the only admin, with the configured name and a current password; all tokens are revoked if the name or the password changed or other rows were collapsed, and none otherwise. |
| `AdminBootstrap.AdminDb.CreateAdmin` | backend/services/auth_service.py:350-362 | Without any admin one is created, unless the password cannot be hashed. |
| `AdminBootstrap.AdminDb.EnsureAdminUser` | backend/services/auth_service.py:308-448 | From every valid database: exactly one admin remains, with the configured name; its account keys are distinct and are all the keys there were; every cross-post is kept and owned by it. |
| `SyncJournal.CoveredChange` | backend/api/sync.py:75-136 | Any change to a file that the journal covers, arbitrary bytes included, is undone by restoring. |
| `SyncJournal.EntryIsHarmlessIff` | backend/api/sync.py:75-93 | One more journal entry leaves what is restored unchanged exactly if it says what restoring would give anyway. |
| `SyncJournal.DeletionIsUndoneIff` | backend/api/sync.py:354-372 | A single deletion is undone if and only if its path has no leading slash. |
| `SyncRollback.AlwaysUndoneIff` | backend/api/sync.py:75-136 | For every request: rolling back gives the files as they were, whatever the files and the bytes and wherever and however the commit ends, if and only if, among the paths that lead to one place, the first has no leading slash and all uploads to the place are under that very path. |
| `SyncRollback.FittingRunsAreUndone` | backend/api/sync.py:354-524 | The one direction, for every run of deletions, uploads and normalisation, failing writes included. |
| `SyncRollback.SlashedDeletionIsLost` | backend/api/sync.py:354-372 | The other one for a first path with a leading slash: there is a run whose rollback loses a file. |
| `SyncRollback.SecondKeyIsWrong` | backend/api/sync.py:375-507 | And for an upload under a second key: its journal entry saves what the request itself has made of the file, in a run in which every upload is written. |
| `SyncRollback.AliasedUploads` | backend/api/sync.py:75-93 | The real input: uploads of `posts/a/index.md` and `posts/a//index.md`, whose rollback leaves the first one's bytes. |
| `SyncCommit.Commit.RememberOriginalFile` | backend/api/sync.py:75-93 | The journal gets the bytes the file has now the first time a key is used, and nothing otherwise or if they cannot be read. |
| `SyncCommit.Commit.WriteFile` | backend/api/sync.py:402-507 | A write changes nothing but its own file, where it may leave anything if it fails. |
| `SyncCommit.Commit.ApplyDeletions` | backend/api/sync.py:354-372 | Deletions are steps of a run of the request. If none raises, every listed file is gone unless a warning names its path, every file that is not listed is as it was, and the number of deletions answered is the number of files that are gone. |
| `SyncCommit.Commit.StoreUpload` | backend/api/sync.py:394-507 | Overwriting or merging, with the lists the client is answered with, is what the specification of one upload says; if it raises, only the upload's own file has changed. |
| `SyncCommit.Commit.ProcessUpload` | backend/api/sync.py:375-507 | One upload is the next step of the run, and what it makes of the files and the lists is what the specification says. |
| `SyncCommit.Commit.ProcessUploads` | backend/api/sync.py:375-507 | So are all of them, in order, up to the first that raises. |
| `SyncCommit.Commit.NormalizeFrontmatter` | backend/api/sync.py:509-524 | Normalisation changes only the files of uploaded posts that it lists as rewritten or warns about; what it lists is on the download list afterwards, once, and nothing else is added to it. |
| `SyncCommit.Commit.RestoreOriginalFiles` | backend/api/sync.py:109-136 | Every file whose restoring did not fail is as the journal says; without failures all are. |
| `SyncCommit.Commit.Mutate` | backend/api/sync.py:354-524 | For every request the steps taken are those of a run from the files at the start. After success the listed files are gone but for those warned about; with distinct places every upload is answered as in the rows of `SyncAnswers` and has converged, but for posts that the answer warns about. |
| `SyncCommit.Commit.Run` | backend/api/sync.py:354-545 | For every request: a commit that fails or is rejected gives the files back, up to the failures it reports, if the paths fit as above. A completed one has deleted what it does not warn about, and if no two uploads share a place, every upload is overwritten, merged or refused as the texts and the merge decide, with exactly the conflicts and downloads that this means. |
| `SyncAnswers.UploadsAreAnswered` | backend/api/sync.py:375-524 | For every completed commit with distinct places, told by the two texts and the merge alone: an upload that is text, differs from the server's text, and is a post or the label file is replaced by the merge, which is to be downloaded and whose conflict is listed if and only if it has one, or, if the merge raises, leaves the file untouched with one conflict listed; every other upload is written as it is, without conflict. A post may be rewritten or warned about afterwards. Nothing else is listed, nothing twice, and no other file changes. |
| `SyncAnswers.AnsweredStep` | backend/api/sync.py:375-507 | One more upload is answered in this way and leaves the answers for the earlier ones alone. |
| `SyncAnswers.NormalisedAnswer` | backend/api/sync.py:509-524 | Normalisation keeps the answers, up to the files it lists as rewritten or warned about. |
| `SyncConvergence.ProgressStep` | backend/api/sync.py:375-507 | One more upload to a place of its own converges, and leaves the convergence of the earlier ones alone. |
| `SyncConvergence.DistinctUploadsConverge` | backend/api/sync.py:375-524 | If no two uploads lead to one place, every upload of a completed commit has converged, but for posts whose rewriting failed. |
| `SyncConvergence.SharedPlaceDiverges` | backend/api/sync.py:375-507 | Two uploads to one place: the bytes of the first are lost without notice. |
| `SyncConvergence.AlwaysConvergesIff` | backend/api/sync.py:375-524 | For every list of upload names: completed commits converge whatever the files, the bytes and the normalisation, if and only if no two names lead to one place and none is a post if its rewriting can fail, or one leads nowhere so that none completes. |
| `SyncConvergence.StaysConverged` | backend/api/sync.py:509-524 | Normalisation keeps an upload converged unless it is a post whose rewriting failed. |
| `SyncConvergence.FailedRewriteDiverges` | backend/services/sync_service.py:702-708 | A post whose rewriting fails: the client is told of nothing to download, and the file holds what the failed write has left. |
| `SentinelMask.MaskingKeepsPositions` | backend/pandoc/sentinel.py:83-118 | For every text the masked text has the same length and line breaks, and differs only by spaces, only in escapes and in code spans closed by a run of exactly the opening length. |
| `SentinelMaskTwice.UnchangedIff` | backend/pandoc/sentinel.py:83-118 | Masking leaves a text as it is if and only if it holds no escape and no two runs of backticks of one length. |
| `SentinelMaskTwice.MaskingTwiceIff` | backend/pandoc/sentinel.py:83-118 | Masking is idempotent on a text if and only if the scan does not come to two runs of one length that nothing closes. |
| `SentinelMaskTwice.LaterTwinIsBehindEscape` | backend/pandoc/sentinel.py:83-118 | Of two such runs, the later one stands directly behind an escaped backtick. |
| `SentinelMaskTwice.EscapedTick` | backend/pandoc/sentinel.py:83-118 | The input that refutes idempotence: two backticks, a backslash and three backticks. The first pass leaves two runs of two, the second takes them for a code span. |
| `SentinelMask.FindClosing` | backend/pandoc/sentinel.py:104-110 | The find loop finds the first run of exactly that length, or none, although it searches for the delimiter as a substring. |
| `SentinelMask.MaskInlineCodeAndEscapes` | backend/pandoc/sentinel.py:83-118 | The in-place scan computes the specified masking. |
| `SentinelLines.ClassifyDivFence` | backend/pandoc/sentinel.py:68-80 | Three or more colons close a div when alone and open one when anything but whitespace follows. |
| `SentinelFootnotes.CollectDefinitions` | backend/pandoc/sentinel.py:131-148 | The loop computes the map of the definitions. |
| `SentinelFootnotes.DefinitionsAreFirst` | backend/pandoc/sentinel.py:131-148 | A label is in that map if and only if some line defines it, one that is not itself more text of a definition above it; and it is mapped to the first such line. |
| `SentinelFootnotes.OnlyTabsHide` | backend/pandoc/sentinel.py:131-148 | Only a definition indented by a tab can be taken for more text of the definition above it. |
| `SentinelFootnotes.MaskedLinesMatch` | backend/pandoc/sentinel.py:151-151 | The masked text has as many lines as the source, of the same lengths. |
| `SentinelFootnotes.CollectFootnoteLines` | backend/pandoc/sentinel.py:121-188 | The entries are those of the live lines in document order, each line's in column order, with these definitions; and every one is a valid source line. |
| `SentinelFootnotes.NotesAreReferences` | backend/pandoc/sentinel.py:150-188 | A line is an entry if and only if some line outside of fences and definitions refers to a label defined there, or is that line and holds an inline footnote. |
| `SentinelScanner.ScanLineKeeps` | backend/pandoc/sentinel.py:244-413 | Every line keeps the invariant: anchors strictly increase, list items stay inside their block, the open list is the last block, the open term is the last block or none, and the div depth is not negative, so deleting the last anchor never invalidates another index. |
| `SentinelScanner.ScanTopLevel` | backend/pandoc/sentinel.py:313-413 | The branches outside of fences, divs and lists do what the specification of one line says. |
| `SentinelScanner.ScanOne` | backend/pandoc/sentinel.py:246-413 | So does one whole turn of the loop. |
| `SentinelScanner.ScanLines` | backend/pandoc/sentinel.py:191-416 | The scan terminates with the specified blocks: strictly increasing lines in range, each list's items starting at its own line, strictly increasing and below the next block's line. |
| `SentinelScanLaws.BlocksAre` | backend/pandoc/sentinel.py:244-413 | A line is reported as a block if and only if it starts one when it is read and no later definition line merges it into the open definition list. |
| `SentinelScanLaws.ItemsAre` | backend/pandoc/sentinel.py:287-402 | A line is reported as a list item if and only if it starts a list or is an item of the open list. |
| `SentinelScanLaws.ParagraphsAreBlocks` | backend/pandoc/sentinel.py:404-413 | In a document without block syntax the blocks are exactly the lines that follow a blank line or nothing. |
| `SentinelScanLaws.FenceIsOpaque` | backend/pandoc/sentinel.py:250-262 | A code fence hides everything up to its closing line: the scan's whole state stays as it is, whatever the lines in between. Which lines open and close one is told below. |
| `SentinelScanLaws.LooseListStaysOpen` | backend/pandoc/sentinel.py:287-296 | Blank lines and lines indented to the item's text change nothing but the pending gap: a loose list stays one block. |
| `SentinelScanLaws.TightListIsOneBlock` | backend/pandoc/sentinel.py:287-402 | A document of list items at the margin is a single block anchored at its first line, with every line as an item. |
| `SentinelShapes.FenceIff` | backend/pandoc/sentinel.py:27-27 | A line counts as a code fence if and only if it begins with three or more backticks or tildes, all of one kind. |
| `SentinelShapes.ClosesIff` | backend/pandoc/sentinel.py:250-262 | A line closes a fence if and only if it is a run of the same character at least as long, with nothing but whitespace behind it. |
| `SentinelShapes.DivIff` | backend/pandoc/sentinel.py:68-80 | A line opens a div if and only if it begins with three or more colons and something but whitespace follows, and closes one if nothing does. |
| `SentinelShapes.ItemIff` | backend/pandoc/sentinel.py:30-30 | A line is a list item if and only if behind its spaces stands a bullet or up to nine digits with a full stop or parenthesis, and then whitespace. |
| `SentinelShapes.DefinitionIff` | backend/pandoc/sentinel.py:38-38 | A line is a definition if and only if behind at most three spaces stands a colon or tilde and then whitespace. |
| `SentinelShapes.NoteIff` | backend/pandoc/sentinel.py:32-32 | A line begins a footnote definition if and only if behind at most three whitespace characters stands a non-empty label in brackets behind a caret, and a colon directly after it. |
| `SentinelShapes.ReferenceIff` | backend/pandoc/sentinel.py:34-34 | A line is a link reference definition if and only if such a label, without a caret, is followed by a colon and whitespace. |
| `SentinelShapes.GoesOnIff` | backend/pandoc/sentinel.py:329-334 | A line goes on with a footnote if and only if it is blank, or indented by four spaces or a tab. |
| `SentinelDocuments.DocumentIsScanned` | backend/pandoc/sentinel.py:191-416 | The scan on all documents of a grammar that does not mention it: paragraphs, code, divs with code and divs nested in them, lists, footnote and link reference definitions, and definition lists, one after the other as their first lines and the gaps allow. The blocks reported are exactly those the grammar says, each on its first line, lists with the lines of all their items. |
| `SentinelDocuments.CodeIsOneBlock` | backend/pandoc/sentinel.py:250-362 | Three or more backticks or tildes, lines of which none closes them, and a line that does: one block, on the first line. |
| `SentinelDocuments.DivIsOneBlock` | backend/pandoc/sentinel.py:264-347 | A fenced div is one block, on the first line, whatever code and whatever divs are nested in it. |
| `SentinelDocuments.NoteIsNoBlock` | backend/pandoc/sentinel.py:325-337 | A footnote definition with all lines that go on with it is none. |
| `SentinelDocuments.NothingInsideIsReported` | backend/pandoc/sentinel.py:191-416 | In every such document no line below the first one of some code, a div, a footnote or a link reference is a block or an item. |
| `SentinelDocuments.ParagraphFollows` | backend/pandoc/sentinel.py:404-413 | In every such document a paragraph behind a gap is a block on its first line, whatever stands before. |
| `SentinelPreview.ScanDocument` | backend/pandoc/sentinel.py:191-416 | Blocks and footnote lines of a whole document; a blank one has none. |
| `SentinelFinder.OffsetOfPosition` | backend/pandoc/sentinel.py:485-487 | The table of line starts and the tokenizer's line and column give the offset back. |
| `SentinelFinder.BuildLineOffsets` | backend/pandoc/sentinel.py:454-460 | The table holds the start of every line. |
| `SentinelFinder.BlocksAreLaidOut` | backend/pandoc/sentinel.py:472-532 | The blocks and their items are found in text order, and each item's tag ends before the next item or block begins. |
| `SentinelFinder.RunKeepsInv` | backend/pandoc/sentinel.py:498-532 | A list counts as open only below the top level, and is then the last block found. |
| `SentinelFinderMachine.BlockTagFinder.Feed` | backend/pandoc/sentinel.py:472-532 | The object, with its mutable block records and its second reference to the open list, runs the specified finder. |
| `SentinelFinderTree.FindsTopLevelBlocks` | backend/pandoc/sentinel.py:472-532 | For every forest of elements the blocks found are exactly the top-level block elements in order, each list with its direct items, and the last top-level footnotes section with the items of its lists. |
| `SentinelInjector.DeletingMarksRestores` | backend/pandoc/sentinel.py:581-589 | Deleting the marks from the parts of the output gives the HTML back, and the marks are the insertions in order. |
| `SentinelErase.ErasingRestoresIff` | backend/pandoc/sentinel.py:535-589 | On the text alone: erasing every mark found in the output gives the HTML back if and only if no stretch of HTML between two insertions holds a mark of its own. |
| `SentinelErase.ErasingRestores` | backend/pandoc/sentinel.py:535-589 | In particular for all HTML without such a mark. |
| `SentinelErase.EraseInFront` | backend/pandoc/sentinel.py:547-580 | No mark reaches over the beginning of another one: what stands before a mark is erased independently of it. |
| `SentinelInjector.Assemble` | backend/pandoc/sentinel.py:582-589 | The output loop writes exactly those parts. |
| `SentinelOrder.FlowStaysOrdered` | backend/pandoc/sentinel.py:559-581 | After the stable sort, and whatever footnote marks are among them, the in-flow marks are in the order of their source lines. |
| `SentinelPreview.InjectSentinels` | backend/pandoc/sentinel.py:535-589 | The output is the HTML with the sorted insertions; without HTML or anchors it is the HTML. If the HTML holds no mark itself, erasing the marks from the output text gives it back. |
| `SentinelPreview.InjectionIsConservativeAndOrdered` | backend/pandoc/sentinel.py:535-589 | For every document and all HTML whose tags stand in order: deleting the marks restores the HTML, and the in-flow marks come in non-decreasing source-line order. |
| `SentinelPlaces.MarksAreWhereTheyBelong` | backend/pandoc/sentinel.py:535-589 | In the output, for every document and all HTML: directly before the k-th block stands the mark of the k-th anchor's line; directly behind the tag of the i-th item of a list, the mark of that anchor's i-th item line; before the footnotes section, the mark of the first note; and behind the tag of its i-th item, that of the i-th note. This holds for every index below both lengths whose tag ends, there is one mark for each of these places, and there is no other mark. |
| `SentinelPlaces.PlacesAreInsertions` | backend/pandoc/sentinel.py:581-589 | The parts of the output have their marks at the offsets of the insertions, in their order. |
| `SentinelPlaces.FragmentSaysLine` | backend/pandoc/sentinel.py:535-545 | The digits of a mark, read from the output text, give back the line it stands for, whatever follows it. |
| `PyText.DigitsReadBack` | backend/pandoc/sentinel.py:535-545 | Reading the decimal digits of a number gives the number back. |
| `StableSort.SortIsStable` | backend/pandoc/sentinel.py:581-581 | The sort is stable: picking out elements and sorting commute. |

## Left out

- Routing, middleware, page assembly, the network clients, the Pandoc process, logging, file permissions, symlinks, directory pruning and git history; files are a map from paths to bytes.
- Cryptography: token values are distinct, hashes injective, password checks and hashing are parameters.
- The YAML layer of front matter is taken to give back the fields it was given and the body without outer whitespace; label lists, dates and the author field of posts are not part of the index and are left out of it.
- HTML tokenising: the sanitizer and the finder start from the events the tokenizer reports; the finder's events stand in text order, and each start tag has its `>` before the next tag.
- Lower-casing is done for ASCII letters only, and the digits of list markers are the ASCII ones.
- Lone surrogates cannot occur in a string here, so the `.env` round trip is stated for Unicode scalar values.
- The scheme that URL parsing finds is a parameter of the sanitizer policies.
- Rendering failures during a cache rebuild or a post request, which skip a post or reject the request before anything is stored.
- The endpoint for uploading a whole post directory, the sync status and download endpoints, page caches, excerpts and heading anchors.
- SanitizerTwice.SanitizingTwice: takes it that the tokenizer reports written text one character or reference at a time, and attribute values unescaped.
- SyncCommit.Commit.Run: convergence is stated for a codec that reads back the text it writes; merging and the outcome of normalisation are parameters. A commit that is cancelled while it runs is not among the outcomes: the handlers of the source catch `Exception` only, and such a commit is not rolled back there.
- SyncConvergence.AlwaysConvergesIff: takes it that there are two contents that are not text and one that is, as there are for UTF-8.
- KeypairLock.SafeExactlyWhen: key generation is a fresh value per caller, the rename that puts the file in place is atomic, a load is one step, and no unlink fails; waiting for a held lock is bounded as in the code.
- TokenRotation.SingleUse: a select is one step and each transaction another one, as the database provides; new tokens are fresh.
- PostIndex.AlwaysInSyncIffFaithful: the index's delete command removes exactly the postings of the values it is given; what a failed write leaves is given as what a scan reads there, so bytes that are not text count as no file.
- AssetQuota.ContentStore.DeleteAsset: takes it that a failed deletion leaves the file as it was; whether a size can be read is a parameter.
- AdminBootstrap.AdminDb.EnsureAdminUser: deleting a stale admin removes what it still owns, posts whose rewriting fails keep their author, and a password check that raises has the effect of one that succeeds.
- SentinelDocuments.DocumentIsScanned: documents in which a fence or div is never closed, or a block begins without the gap it needs, are outside of the grammar; for these the scan is told by SentinelScanLaws.BlocksAre and SentinelScanLaws.ItemsAre in terms of its own state.
- EnvSettings.HostSettingsReadBack: takes it that the three unquoted values have no line break; with one, later lines may assign any name, as EnvRoundTrip.BrokenSizeOverrides shows for secrets.
- SyncAnswers.UploadsAreAnswered: the answer's warnings are the paths they name; their wording and those about merge bases and unreadable label files are not modelled.
- KeypairProgress.AllReturn: that some caller gets the lock is a matter of scheduling and is taken as given.
- SentinelOrder.FlowStaysOrdered: marks of the footnotes section are not part of the order, since footnote definitions may stand anywhere in the source.
- That the number and order of the scanned blocks agree with the rendered HTML: it depends on Pandoc, and the source itself lists constructs for which it fails; pairing stops at the shorter list, as in the code.
