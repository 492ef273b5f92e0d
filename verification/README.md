# Verified models of the QQQ gate tooling

This project models, in Dafny, the algorithms inside the Python gate of the QQQ repository (`tools/`) and
proves what the gate relies on them for. `dafny verify dfyconfig.toml` checks all of it.

| file | models |
|---|---|
| `RustModes.dfy` | the reference reading of Rust text: one mode at a time over the whole text |
| `AuditUnsafe.dfy`, `AuditScan.dfy` | the unsafe audit's line walker, its threading over lines, bucketing and validation |
| `Entrypoints.dfy` | discovery of crate entrypoints, and the audit that demands a `forbid` at each |
| `MaskTokens.dfy`, `MaskSource.dfy` | the token structure of `mask_source`, and the masker itself |
| `IncludeStr.dfy` | live `include_str!` sites and the copied-path test |
| `CodeReadings.dfy` | the masker's reading of Rust text against the audit's |
| `StripText.dfy`, `Braces.dfy` | the second masker, and brace regions |
| `OrderedMaps.dfy` | the comment stripper of the ordered-map audit |
| `Weights.dfy`, `Checklist.dfy` | sums over bags; the checklist's `analyse` and `fix` |
| `ScopeTable.dfy` | the module worklist and the orphan rule |
| `Schema.dfy` | the envelope validator against JSON Schema draft 2020-12 |
| `WitTypes.dfy`, `BatchFirst.dfy` | printed WIT types and the two signature readers |
| `FaultInjectIo.dfy`, `FaultInject.dfy` | the retrying writers; snapshot, any steps in between, verify |
| `GateParity.dfy` | the comparison of the two gates |
| `Strings.dfy`, `Wrappers.dfy` | substring search, line splitting, `Option` |

Code that changes variables step by step is a method with loops, proved equal to a specification function;
the laws are then lemmas about that function. The main results are these.

- Line scan = whole-text scan. The audit walks lines with five variables that nothing keeps from
  contradicting each other, and hands three of them to the next line. At every position of every line it
  gives the verdict of a one-mode machine over the whole text, and after the last line it holds open exactly
  what that machine holds open. Every nesting of block comments and every raw string is therefore prose
  over any number of lines. Discovery and audit together (`AuditDisk`) are silent exactly when every
  entrypoint of every crate on disk has its `forbid` in code and the whole texts are in order.
- `mask_source` blanks the tokens of a unique spelling. Every text is spelled by exactly one sequence of
  tokens; the masker's output is that sequence blanked. Offsets align, masking is idempotent on every text,
  and `include_sites` finds exactly the calls whose characters are all code.
- It is known exactly when scanners written apart agree. The second masker equals the first exactly on texts
  of the tokens both were written for (two unusual tokens aside), and the ordered-map stripper reads the same
  tokens, with comments of any nesting. On a text without quotes it is at the whole-text depth at each of its
  lines exactly when no line comment runs over a break that only it cuts at; the two nested-comment scanners
  then have one depth at every line.
- Two readings of Rust text meet. On texts whose tokens are read alike, the masker and the whole-text machine
  call the same characters code, so an `include_str!` call is found exactly where the unsafe audit is in code.
- A silent checklist is a partition. No rule looks for an area listed in two phases; the two totals exclude
  it by double counting. Silence says exactly that the rows that count and both totals state the real numbers
  of items and each area is listed once. `fix` repairs a document exactly when what is left is not a person's job.
- The envelope validator accepts exactly what JSON Schema draft 2020-12 accepts for another schema, the one
  with each `anyOf` cut to its first branch and the siblings of `$ref` and `anyOf` dropped, whenever no node
  asks for `number` and no float in the value is whole.
- Reading a printed WIT declaration inverts printing it, for all type trees: its error type, and whether it
  takes a batch.
- Over every gate run, whose steps may write, remove, track, untrack or restore any path under any plan of
  failures: when every path of the snapshot can be stored, verification passes exactly when the tracked tree
  is the one it was. Up to a digest collision at one path, a run that leaves a tracked file created, deleted
  or modified never passes. When a path cannot be stored, a run that changes nothing fails, and which
  snapshots can still pass is characterised.
- In every order of visits, the module worklist sees all of one closure and nothing outside another; the
  order matters.

## Where the code and its promises part

The models follow the code. Each difference below is proved at an input, with the condition under which the
code does keep the promise.

- `mask_source` says it preserves line structure (tools/check_api_examples.py:136). It does exactly when no
  string escapes a newline and no char literal holds one (`LinesSurvive`, `ContinuedStringLosesLine`).
- `mask_source` blanks a char literal with an escape whole exactly when the escape is not the quote itself
  (`EscapeReadWhole`, `EscapeIsBlanked`). An escaped quote is closed one character early, and its last quote
  survives exactly when it opens no char literal with what follows (`EscapedQuoteLeaks`). When it does, the
  phantom string that the function's description reports as fixed (tools/check_api_examples.py:151-161) is
  back: `'\'','"'fn f(){}` is blanked to its end, function and all (`PhantomString`).
- `mask_source` does not nest comments: a call after the inner closer of a nested comment is found
  (`NestedCommentLeaks`). Where every token is read alike (`Alike`: comments not nested, raw strings at an
  identifier boundary, short char literals), calls are found exactly in code (`LiveIsCode`).
- `walk_line` reads a char literal as one exactly when its closing quote is within three characters
  (`CharLiteralRead`). After a longer one, such as `'\x41'`, a phantom string can hide code, the direction the
  audit calls dangerous (tools/audit_unsafe.py:121-122, `LongLiteralHidesCode`).
- The batch check says that a scalar element is a buffer and not a batch
  (tools/check_batch_first.py:229). Its set leaves out `s8` and `s16`, so `list<s8>` is found as a batch
  (`SmallBufferIsFound`). The verdict is right exactly when there is a batch or no such buffer
  (`VerdictIsRight`).
- `reachable_modules` promises every reachable file. Which files it sees can depend on the order in which
  declarations come out of a set (`OrderMatters`); what every order keeps is `EveryOrderBrackets`, and where
  no declaration has a second candidate every order sees the same (`OneCandidateOneResult`).
- `validate_envelope` leaves the errors of a failed `anyOf` branch in its list, so the published
  string-or-null fields reject null (`AcceptsExactly`, `NullableIsRejected`). It ignores keywords beside
  `anyOf` and `$ref` (`SiblingIsIgnored`, `ReferenceSiblingIsIgnored`); without such siblings acceptance is
  sound (`AcceptanceIsSound`). Its type test differs from the standard's exactly on integers asked for as
  `number` and on floats asked for as `number` or, when whole, as `integer` (`TypeTestExactly`,
  `NumbersAreRejected`). With these three accounted for, it is exact (`CutIsStandard`).
- Repair mode reports that the checklist agrees with itself whenever `fix` changes nothing
  (tools/check_checklist_counts.py:224-228). That is right exactly when the document is fixable
  (`NothingToFix`, `NothingToFixCanDisagree`).
- The restore module promises a total wait under four seconds (tools/_fault_inject_io.py:50-51). That holds
  of a restore that returns; one that raises has waited 4.2 seconds (`DefaultWait`).
- `walk_line` does not close a raw string whose closer is followed by a further `#`
  (`ExtraHashKeepsOpen`).
- The two comment scanners cut a text into the same lines exactly when only newlines break them
  (`CutsAgree`). A form feed in a line comment makes their depths part (`FormFeedParts`); their modes agree at
  every stripped line exactly when there is no such break in a line comment (`InStepExactly`).
- The snapshot gate says that none of the tracked files moved (tools/check_fault_inject_restores.py:221).
  For paths that can be stored that is exact (`GateRun`). A tracked path that starts with line breaks,
  replaced by the path without them, passes unseen (`RenamePassesUnseen`).

## Model

| member | source | states |
|---|---|---|
| AuditUnsafe.WalkLine | tools/audit_unsafe.py:158-228 | the walker's loop over its own variables, for every entry state, computes `Walk` |
| AuditUnsafe.CountHashes | tools/audit_unsafe.py:184-186 | the inner loop counts the maximal run of hashes |
| AuditUnsafe.AdvanceMatches | tools/audit_unsafe.py:164-225 | one turn of the loop on five variables is one step of the one-mode machine on the text around the line |
| AuditUnsafe.WalkMatches | tools/audit_unsafe.py:158-228 | up to any position of a line, verdict and open state are those of the whole-text run |
| AuditUnsafe.LineMatches | tools/audit_unsafe.py:362-364 | the state a whole line hands on is what the text has open where the next line starts |
| AuditScan.ReadLinesCuts | tools/audit_unsafe.py:319-320 | reading lines cuts the text at its newlines and drops nothing |
| AuditScan.EntryMatches | tools/audit_unsafe.py:327-364 | the state threaded into every line is what the whole text has open there |
| AuditScan.ThreadedVerdict | tools/audit_unsafe.py:328-364 | every position of every line gets the verdict of one scan of the whole text |
| AuditScan.ThreadedEnd | tools/audit_unsafe.py:362-370 | after the last line the threaded state is what the whole text leaves open |
| RustModes.RawOpenerIs | tools/audit_unsafe.py:205-209 | a raw-string opener is exactly r, br or cr at an identifier boundary, and hashes up to the quote |
| RustModes.DepthStaysPositive | tools/audit_unsafe.py:168-178 | a run from code is never in a comment of depth zero or less |
| RustModes.BodyCloses | tools/audit_unsafe.py:168-178 | a comment body of any nesting ends exactly at its closer, one level out |
| RustModes.NestedCommentIsProse | tools/audit_unsafe.py:168-178 | a comment of any nesting is prose throughout and code resumes exactly at its end |
| RustModes.CommentEndsExactly | tools/audit_unsafe.py:168-178 | a comment ends exactly where a readable body spelled after its opener ends, and never when none is spelled |
| AuditScan.NestedCommentHidesLines | tools/audit_unsafe.py:168-178 | spread over any number of lines: the line scan says prose at a position of the comment exactly before its closer, and code from there |
| RustModes.RawStringIsProse | tools/audit_unsafe.py:180-209 | a raw string of any hash count is prose between its quotes, whatever it holds, and code resumes right after its closer |
| RustModes.ExtraHashKeepsOpen | tools/audit_unsafe.py:183-190 | with one more hash after it the literal is not closed: the condition on what follows is exact |
| AuditScan.RawStringHidesLines | tools/audit_unsafe.py:180-209 | spread over any number of lines: prose at every line position between the quotes, code after the closing quote when no further hash follows |
| AuditScan.ScanLine | tools/audit_unsafe.py:336-361 | every match of a line lands in the bucket the whole-text reading gives it |
| AuditScan.ScanFile | tools/audit_unsafe.py:317-370 | each bucket of a file is exactly what the whole-text reading puts there; unterminated exactly when the text ends inside a comment or string |
| AuditScan.ValidateScan | tools/audit_unsafe.py:376-413 | which problems are reported, case by case; silent exactly when there are files and roots, every entrypoint is covered and nothing is open |
| AuditScan.Audit | tools/audit_unsafe.py:295-413 | every report and every code hit, exactly, by the whole-text reading; silent exactly when there are files, some entrypoint and every listed one has an inner forbid standing in code, and no file ends open |
| AuditScan.HitKinds | tools/audit_unsafe.py:345-361 | the path, line and kind each match is recorded with |
| AuditScan.UnterminatedIs | tools/audit_unsafe.py:365-370 | what a file that ends open is reported as |
| Entrypoints.EntrypointShapes | tools/audit_unsafe.py:237-260 | an entrypoint is exactly a build.rs, src/lib.rs, src/main.rs, src/bin/n.rs or src/bin/n/main.rs of some crate |
| Entrypoints.FindEntrypoints | tools/audit_unsafe.py:263-292 | finds exactly the files of those shapes in directories that have a Cargo.toml |
| Entrypoints.AuditDisk | tools/audit_unsafe.py:263-413 | discovery and audit together: an entrypoint is reported exactly when it is on disk, of a crate, and has no inner forbid in code; silent exactly when there is nothing to report |
| MaskTokens.FirstStands | tools/check_api_examples.py:173-236 | the token the branches find is one the text spells at that place |
| MaskTokens.FirstIs | tools/check_api_examples.py:173-236 | a token the text spells is the one the branches find |
| MaskTokens.LexSpells | tools/check_api_examples.py:170-238 | every text, terminated or not, is spelled by the tokens found in it |
| MaskTokens.SpellingIsUnique | tools/check_api_examples.py:170-238 | no other token sequence spells it: lexing inverts spelling |
| MaskTokens.SpelledText | tools/check_api_examples.py:170-238 | the tokens, rendered one after another, are the text |
| MaskSource.MaskLine | tools/check_api_examples.py:176-180 | the line-comment loop blanks exactly the comment |
| MaskSource.MaskBlock | tools/check_api_examples.py:182-190 | the block-comment loop blanks the comment up to its first closer, or to the end |
| MaskSource.ProbeRaw | tools/check_api_examples.py:192-198 | recognises a raw string and its hash count |
| MaskSource.MaskRaw | tools/check_api_examples.py:199-205 | blanks a raw string to its closer, or to the end |
| MaskSource.ProbeChar | tools/check_api_examples.py:207-220 | tells a char literal from a lifetime and measures it |
| MaskSource.MaskString | tools/check_api_examples.py:223-235 | the string loop blanks items and escapes to the quote, or past the end |
| MaskSource.MaskOne | tools/check_api_examples.py:173-237 | the branch order blanks exactly the token that starts at the position |
| MaskSource.MaskText | tools/check_api_examples.py:170-238 | the masker's output is the tokens of the text, each blanked |
| MaskSource.MaskIsAligned | tools/check_api_examples.py:170-238 | at most two characters longer; code kept in place, everything else a space or an original newline |
| MaskSource.NoQuoteSurvives | tools/check_api_examples.py:222-235 | no double quote is left |
| MaskSource.MaskIsIdempotent | tools/check_api_examples.py:170-238 | masking masked text changes nothing, for every text |
| MaskSource.LinesSurvive | tools/check_api_examples.py:136-238 | newlines are kept in place exactly when no string escapes one and no char literal holds one |
| MaskSource.ContinuedStringLosesLine | tools/check_api_examples.py:227-230 | a string continued over a line end loses it |
| MaskSource.EscapeReadWhole | tools/check_api_examples.py:207-216 | a char literal with an escape, of one character or numeric, is read whole exactly when the escape is not the quote |
| MaskSource.EscapeIsBlanked | tools/check_api_examples.py:207-216 | in the mask: spaces over the whole literal, or for an escaped quote a leftover quote that stays exactly when it opens no char literal |
| MaskSource.PhantomString | tools/check_api_examples.py:151-235 | the leftover quote pairs with the quote of a following double-quote literal and opens a string; with no later double quote the whole rest is blanked |
| MaskSource.EscapedQuoteLeaks | tools/check_api_examples.py:207-215 | the smallest case: the literal of an escaped quote keeps its last quote |
| IncludeStr.FoundIsLive | tools/check_include_str.py:142-155 | a call found in the masked text is exactly a call verbatim in the source with every character code |
| CodeReadings.StringIsProse | tools/audit_unsafe.py:194-209 | a string met in code is prose between its quotes, whatever it escapes, and code resumes right after it |
| CodeReadings.CharLiteralRead | tools/audit_unsafe.py:210-219 | a char literal met in code is prose with code right after it exactly when its closing quote is within three characters; otherwise it is read as code and its last quote may open another |
| CodeReadings.LongLiteralHidesCode | tools/audit_unsafe.py:210-219 | after a longer literal, a following double-quote literal opens a string that hides everything up to the next double quote |
| CodeReadings.StringIsNotRaw | tools/check_api_examples.py:192-223 | where the masker reads a string, the machine finds no raw-string opener before it |
| CodeReadings.ReadingsAgree | tools/check_api_examples.py:170-238 | on texts of tokens read alike, the masker and the machine call the same characters code, but for newlines and raw-string openers |
| CodeReadings.LiveIsCode | tools/check_include_str.py:142-155 | there, a call is live exactly when it stands where the machine is in code |
| CodeReadings.NestedCommentLeaks | tools/check_api_examples.py:182-190 | a call after the inner closer of a nested comment is live although it is prose |
| IncludeStr.OperandIs | tools/check_include_str.py:91-91 | an operand is exactly white space, a quote, one or more characters that are none, and a quote |
| IncludeStr.OperandReadsBack | tools/check_include_str.py:91-91 | a quoted operand after any white space is read back |
| IncludeStr.IncludeSites | tools/check_include_str.py:142-155 | at strictly increasing positions, one for each site, stands a live call whose operand is that site, and every live call with an operand is among them |
| IncludeStr.WrittenCallIsFound | tools/check_include_str.py:142-155 | a call written out with white space and a quoted operand, met outside comments and literals, gives its operand at its place |
| IncludeStr.UnderIsPrefix | tools/check_include_str.py:180-183 | the string test is component-wise prefix, for every copied path |
| IncludeStr.CopiedDirectory | tools/check_include_str.py:180-183 | a copied directory with any trailing slashes covers exactly what lies under it |
| IncludeStr.Problems | tools/check_include_str.py:167-185 | reports exactly the sites outside the repository and those under no copied path |
| IncludeStr.SilenceMeansCopied | tools/check_include_str.py:167-185 | silent exactly when every site resolves under a copied path |
| StripText.Strip | tools/check_no_poison_expect.py:66-113 | the second masker's loops compute its specification |
| StripText.StripIsAligned | tools/check_no_poison_expect.py:66-113 | on every text, at most two characters longer and every position a space or the original |
| StripText.MaskersAgree | tools/check_no_poison_expect.py:66-113 | on texts of tokens both maskers were written for, it equals `mask_source` |
| StripText.MaskersAgreeExactly | tools/check_no_poison_expect.py:66-113 | on no other texts, unless a comment body starts with a slash or a char literal is an escaped quote |
| StripText.UnlikeTokensBlankAlike | tools/check_no_poison_expect.py:77-82 | a comment whose body starts with a slash, read differently and blanked alike |
| StripText.EscapedQuoteBlanksAlike | tools/check_no_poison_expect.py:95-107 | an escaped-quote literal, read differently and blanked alike |
| StripText.BracesAreCode | tools/check_no_poison_expect.py:67-68 | there, every brace left is a brace of the code at its own offset |
| Braces.MatchBrace | tools/check_no_poison_expect.py:116-126 | ends the shortest segment with as many closing as opening braces: every shorter one opens more; the end of the text when there is none |
| Braces.RegionsAreLaminar | tools/check_no_poison_expect.py:116-126 | regions of two opening braces are disjoint or nested, unclosed ones included |
| Braces.Regions | tools/check_no_poison_expect.py:129-168 | the spans of exactly the matches with a brace after them, in order |
| Braces.SpanMeans | tools/check_no_poison_expect.py:129-168 | a span starts with its match and ends where the first brace after the match closes |
| Braces.SpansAreLaminar | tools/check_no_poison_expect.py:129-168 | the brace parts of any two spans are disjoint or nested |
| OrderedMaps.StripComments | tools/check_ordered_maps.py:143-208 | the stripper's loop computes `Strip`, code and depth |
| OrderedMaps.StrippedLines | tools/check_ordered_maps.py:211-218 | each line is stripped at the depth threaded into it |
| OrderedMaps.KeepsExactlyCode | tools/check_ordered_maps.py:151-208 | without quotes, what is kept is exactly what the whole-text machine reads as code |
| OrderedMaps.BodyStripped | tools/check_ordered_maps.py:155-164 | a comment body of any nesting is stripped whole, one level out |
| OrderedMaps.StripsToResidues | tools/check_ordered_maps.py:151-208 | a line spelled by tokens and comments of any nesting strips to their residues: literals emptied, comments gone, code kept; it ends in a comment exactly when it leaves one open |
| OrderedMaps.LineIsSpelled | tools/check_ordered_maps.py:151-208 | every line is spelled so, unless a char escape is longer than one character |
| OrderedMaps.CutsAgree | tools/check_ordered_maps.py:215-215 | both scanners cut a text into the same lines exactly when only newlines break it |
| OrderedMaps.InStepExactly | tools/check_ordered_maps.py:151-218 | without quotes, the stripper is at the whole-text depth where each of its lines starts exactly when no line comment holds a break that only it cuts at |
| OrderedMaps.CommentDepthsAgree | tools/check_ordered_maps.py:151-218 | then both comment scanners are at the same depth where every line starts and after the last |
| OrderedMaps.FormFeedParts | tools/check_ordered_maps.py:215-215 | a form feed in a line comment makes them disagree |
| Checklist.CountsByArea | tools/check_checklist_counts.py:83-87 | the areas that occur, each with how often it does; together as many as there are items |
| Checklist.Analyse | tools/check_checklist_counts.py:119-184 | reports every disagreement and nothing else |
| Checklist.SilentMeansConsistent | tools/check_checklist_counts.py:119-184 | silent exactly when rows, totals, coverage and phase sums all agree |
| Checklist.SilentSays | tools/check_checklist_counts.py:119-184 | silent exactly when the rows that count state the real numbers of items, both totals state the number of all items, and each area with items is listed once |
| Checklist.LastAreaRow | tools/check_checklist_counts.py:104-105 | of several rows for one area the last counts |
| Checklist.LastMapRow | tools/check_checklist_counts.py:108-112 | of several rows for one phase in the map the last counts |
| Checklist.LastPhaseRow | tools/check_checklist_counts.py:115-116 | of several rows for one phase in the table the last counts |
| Checklist.SumIsPairs | tools/check_checklist_counts.py:161-161 | the sum over a phase's areas counts the items of those areas |
| Checklist.SilentMeansPartition | tools/check_checklist_counts.py:149-182 | a silent analysis lists every area with items exactly once over all phases |
| Checklist.OncePinsPlace | tools/check_checklist_counts.py:149-155 | listed once means at one phase and one position |
| Checklist.FixStates | tools/check_checklist_counts.py:187-211 | what fix leaves alone, and that every rewritten row and total states the real number of items |
| Checklist.FixIsIdempotent | tools/check_checklist_counts.py:187-211 | fixing a fixed document changes nothing |
| Checklist.FixSucceeds | tools/check_checklist_counts.py:187-211 | a fixed document is silent exactly when areas have rows, totals exist, phases match and each area is listed once |
| Checklist.NothingToFix | tools/check_checklist_counts.py:223-228 | an unchanged document is silent exactly when it was fixable |
| Checklist.NothingToFixCanDisagree | tools/check_checklist_counts.py:223-228 | a document that fix leaves unchanged and analysis rejects |
| ScopeTable.ModuleFileIs | tools/check_scope_table.py:87-91 | name.rs whenever it exists, else name/mod.rs whenever that does, else none |
| ScopeTable.Expand | tools/check_scope_table.py:104-112 | queues exactly the first unseen candidate of each module |
| ScopeTable.EveryOrderBrackets | tools/check_scope_table.py:94-113 | whatever waiting file each visit takes, the files seen in the end hold the closure under preferred candidates within the closure under all |
| ScopeTable.ReachableModules | tools/check_scope_table.py:94-113 | terminates, popping any element; its result is that of some order of visits, and so between the closures |
| ScopeTable.OneCandidateOneResult | tools/check_scope_table.py:105-112 | where no declaration of a reachable file has a second candidate, every order sees exactly the reachable files |
| ScopeTable.OrderMatters | tools/check_scope_table.py:104-112 | one tree, two orders, two results |
| ScopeTable.ReachedIsDeclared | tools/check_scope_table.py:104-112 | the closures in terms of spelled-out declarations, next to the file or a directory up, under both spellings |
| ScopeTable.Orphans | tools/check_scope_table.py:132-139 | a file led to by declarations that have it as their only file is never reported; a file no declarations lead to always is |
| Schema.Validator.Resolve | tools/check_schema_conformance.py:290-293 | follows references without changing what the walk reports |
| Schema.Validator.Walk | tools/check_schema_conformance.py:295-322 | appends exactly `Errors` to the shared list |
| Schema.Validator.WalkBranches | tools/check_schema_conformance.py:297-300 | branches tried before one matches leave their errors behind |
| Schema.Validator.WalkCollect | tools/check_schema_conformance.py:324-327 | returns what this walk appended |
| Schema.LookupIsLast | tools/check_schema_conformance.py:319-322 | the schema of a key is that of the last property of that name, and none exactly when there is no such property |
| Schema.PlainReports | tools/check_schema_conformance.py:301-322 | the reports of a plain node: its type alone, or exactly the missing names at its path and what its fields report below theirs |
| Schema.BranchReports | tools/check_schema_conformance.py:297-300 | the reports of an anyOf: those of every branch tried before one passes, and that none did exactly when none does |
| Schema.ReportsAreBelow | tools/check_schema_conformance.py:295-322 | every report is at or below the path the walk started from |
| Schema.ValidateEnvelope | tools/check_schema_conformance.py:286-330 | no errors exactly when the validator's own first-branch test passes; exactly when the value is valid for the cut schema, if none asks for number and no float is whole; only if it is valid, in a flat schema |
| Schema.AcceptsExactly | tools/check_schema_conformance.py:295-330 | the walk reports nothing exactly when the value passes the validator's own type test with every anyOf cut to its first branch |
| Schema.CutIsStandard | tools/check_schema_conformance.py:286-330 | that is validity by the standard for the cut schema, for every schema without number and every value without whole floats |
| Schema.TypeTestExactly | tools/check_schema_conformance.py:301-312 | the type test gives the answer of section 6.1.1 of JSON Schema Validation exactly outside the two number cases |
| Schema.NumbersAreRejected | tools/check_schema_conformance.py:301-312 | an integer is refused as number and 1.0 as integer, which the standard accepts |
| Schema.AcceptanceIsSound | tools/check_schema_conformance.py:295-330 | with nothing beside $ref and anyOf, accepted values are valid by sections 8.2.3.1, 10.2.1.2 and 10.3.2.1 of JSON Schema Core and 6.1.1 and 6.5.3 of JSON Schema Validation, draft 2020-12 |
| Schema.NullableIsRejected | tools/check_schema_conformance.py:297-300 | a string-or-null node rejects null |
| Schema.SiblingIsIgnored | tools/check_schema_conformance.py:297-300 | a type beside anyOf is not applied |
| Schema.ReferenceSiblingIsIgnored | tools/check_schema_conformance.py:290-293 | a type beside $ref is not applied |
| WitTypes.TypePassed | tools/check_batch_first.py:161-177 | a printed type is balanced and keeps its commas inside brackets |
| BatchFirst.ErrorType | tools/check_batch_first.py:154-177 | both scans compute `ErrorTypeOf` |
| BatchFirst.ErrorTypeInvertsShow | tools/check_batch_first.py:154-177 | reading a printed result type gives back its printed error type, and none when it has none |
| BatchFirst.NoResultNoErrorType | tools/check_batch_first.py:156-158 | a declaration without a result type has no error type |
| BatchFirst.ParamsAre | tools/check_batch_first.py:209-209 | the parameters are what stands between the first opening and the last closing parenthesis |
| BatchFirst.TakesACollection | tools/check_batch_first.py:180-240 | true exactly when the parameters hold a stream or a closed list with an element outside the check's own set |
| BatchFirst.CollectsIffBatch | tools/check_batch_first.py:206-240 | on printed parameters, exactly when some applied name at any depth ends in stream, or in list over no element of the check's set |
| BatchFirst.TakesIffBatch | tools/check_batch_first.py:206-240 | the same on a whole printed declaration |
| BatchFirst.DeclarationReadBack | tools/check_batch_first.py:154-240 | on one printed declaration with WIT's own type constructors, the error type is read back, and a batch is found exactly when a parameter holds a stream or a list over no element of the check's set at any depth |
| BatchFirst.VerdictIsRight | tools/check_batch_first.py:229-233 | against WIT's scalars the verdict is right exactly when a parameter holds a batch or none holds a list of s8 or s16 |
| BatchFirst.SmallBufferIsFound | tools/check_batch_first.py:229-233 | a declaration that takes only a list of s8 is found to batch |
| FaultInjectIo.Target.WriteBytes | tools/_fault_inject_io.py:102-127 | returns exactly when an attempt within the limit goes through, then the file holds the data; otherwise raises with the last failure's leavings; waits are triangular |
| FaultInjectIo.Target.Restore | tools/_fault_inject_io.py:55-74 | the same for a copy that reads the backup again at every attempt: the file then holds the backup as of the attempt that went through |
| FaultInjectIo.Target.RestoreBytes | tools/_fault_inject_io.py:77-99 | the backup is read once; an unreadable one raises at once and touches nothing; otherwise content and waits are those of the write |
| FaultInjectIo.SleptIsTriangular | tools/_fault_inject_io.py:64-70 | k failures wait k(k+1)/2 delay units |
| FaultInjectIo.DefaultWait | tools/_fault_inject_io.py:46-52 | a return waits under four seconds, a raise 4.2 |
| FaultInject.ParseIsPartition | tools/check_fault_inject_restores.py:168-170 | a stored line is the path before its first tab and the digest after it |
| FaultInject.SnapshotRoundTrips | tools/check_fault_inject_restores.py:149-172 | the stored snapshot reads back as the tree exactly when every path is non-empty and free of tabs and line breaks |
| FaultInject.Compare | tools/check_fault_inject_restores.py:113-126 | names every created, deleted and modified file; nothing exactly for equal trees |
| FaultInject.Gate.Snapshot | tools/check_fault_inject_restores.py:149-156 | what it stores, files in any order, reads back as the tracked tree exactly when every path can be stored |
| FaultInject.Gate.Verify | tools/check_fault_inject_restores.py:159-222 | exit code 0 exactly when a snapshot is stored and reads back as the tree; otherwise which outcome, and exactly which changes |
| FaultInject.Gate.Apply | tools/_fault_inject_io.py:55-74 | a step of a run; a restore goes through the retrying writer and leaves what its plan of failures leaves |
| FaultInject.GateRun | tools/check_fault_inject_restores.py:139-222 | a whole run of any steps passes exactly when the stored snapshot reads back as the final tree; for storable paths exactly when the tracked digests are unchanged, and up to a collision the tracked files; otherwise never when unchanged |
| FaultInject.SameDigestsSameFiles | tools/check_fault_inject_restores.py:68-94 | equal digests are the same tracked paths with the same contents, unless two contents of one path collide |
| FaultInject.CheckerLeaves | tools/_fault_inject_io.py:55-74 | a checker leaves its backup, or the leavings of its last failed attempt, and nothing else |
| FaultInject.RestoringCheckersLeaveNothing | tools/check_fault_inject_restores.py:139-222 | any sequence of checkers that each get a restore through leaves the tree as it was |
| FaultInject.FailedRestoreShows | tools/check_fault_inject_restores.py:113-126 | a checker that never restores is invisible exactly when its file is untracked or its leavings have the old digest |
| FaultInject.PassableSnapshots | tools/check_fault_inject_restores.py:166-172 | some tree passes against a stored text exactly when the last line for each path carries a digest |
| FaultInject.RenamePassesUnseen | tools/check_fault_inject_restores.py:149-172 | replacing a tracked path that starts with line breaks by the path without them passes |
| GateParity.GlobMiddle | tools/check_gate_parity.py:198-201 | a script name with its middle left open matches by prefix and suffix |
| GateParity.CoversIs | tools/check_gate_parity.py:188-201 | a token with a space or without a wildcard covers itself and what adds arguments to it; one wildcard covers every script of that prefix and suffix |
| GateParity.Check | tools/check_gate_parity.py:204-291 | reports every disagreement and nothing else |
| GateParity.ReportsMean | tools/check_gate_parity.py:204-291 | what each report means, in terms of the two gates, the two lists and the scripts; nothing but vacuity when a gate is empty |
| GateParity.SilentIff | tools/check_gate_parity.py:204-291 | for non-empty gates, silent exactly when divergences are declared for their side only, declarations are at work with their counts, and every script is invoked |
| GateParity.ExpansionRemovesDivergence | tools/check_gate_parity.py:341-350 | when both gates call the single gate, the divergences are the old ones minus its coverage |
| GateParity.ExpansionAddsOnlyDeclarationProblems | tools/check_gate_parity.py:257-291 | expansion adds no report except stale or miscounted declarations |
| GateParity.ExpansionStales | tools/check_gate_parity.py:257-273 | a declaration is stale after expansion exactly when the single gate covers all it covered |

## Left out

- The Rust runtime under `crates/` (hot swap, leases, capability linker, compilation cache): this project is about the gate tooling.
- File walking, subprocesses, git, cargo, clocks, printing and argument parsing: directory contents, texts, pattern matches and failures are inputs.
- Pattern matching: match positions of `CODE_PATTERNS`, `LINTS`, `DROP_RE` and the test markers are inputs; the raw-string opener, the char-literal pattern, the operand pattern and shell-style globs are written out.
- Checklist and gate documents as Markdown and YAML: they are modelled as their rows and commands.
- `items_in`, `fences_in`, `test_ranges`, `file_hits`, `collapse_functions`, `logical_lines`, `copied_paths`: single passes that would only add easy members.
- FaultInjectIo.Target.Restore: that `shutil.copy` also copies metadata is not modelled; an attempt that fails there has failed.
- Checklist.Analyse: the order of the reports is not modelled; the source sorts them.
- GateParity.Check: gates are sets of commands, so the order of reports is not modelled; a token's only wildcard is `*`, the only one the declaration pattern admits.
- FaultInject.Compare: the order of the reports is not modelled.
- Schema.Validator.Walk: a `$ref` is its last path segment and must resolve; references must be ranked so that following them without entering a property ends, as the recursion otherwise does not return.
- BatchFirst.TakesACollection: the reason text returned beside the verdict is not modelled.
- StripText.MaskersAgreeExactly: where a comment body starts with a slash or a char literal is an escaped quote, unlike tokens can blank alike (`UnlikeTokensBlankAlike`, `EscapedQuoteBlanksAlike`), and only `MaskersAgree` is stated.
- OrderedMaps.StripsToResidues: char escapes longer than one character are excluded; the stripper reads those as code.
- CodeReadings.ReadingsAgree: one direction only; tokens read differently can still leave the readings in step.
- ScopeTable.Orphans: in spelled-out terms, that a file no declarations lead to is always reported is stated for trees whose files lie at least two levels deep; for all trees it is stated through the closure.
- Entrypoints.FindEntrypoints: the order of the entrypoints is not modelled; listings are inputs, and links count as what they point to.
- ScopeTable.OneCandidateOneResult: one direction only; with two candidates the result can still be fixed, depending on which files must be visited before which.
- ScopeTable.ReachableModules: the source pops the last element; the model leaves open which one is popped.
- OrderedMaps.CommentDepthsAgree: one direction for depths, since a break in a line comment can leave them equal; the exact statement is the one on modes, `InStepExactly`. Texts with quotes are not covered.
- FaultInject.Gate.Apply: steps change paths one at a time; file modes, links and directories are not modelled.
- Schema.CutIsStandard: keywords the validator does not read (`items`, `minimum`, `maximum` in the published schema) are not modelled.
- AuditUnsafe.WalkLine: needs a position within the line; the source raises on one past its end.
