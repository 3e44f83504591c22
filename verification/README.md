# Telco whiteboard tagger — a Dafny model

The script cross-references support cases from a case portal with bug-tracker
entries. It searches the portal for relevant cases, keeps the open cases that
name a bug, fetches the bugs linked to each of them, and reports every bug
whose internal whiteboard lacks the `Telco` tag. With `--modify` it then
prepends `"Telco "` to the whiteboard of each reported bug.

This project models the decision core of `bz_script.py` as pure functions over
strings, sequences and maps, and proves what that core promises:

- **Tag check** (`TagCheck`): the three-position test on line 79, with Python's
  `w[-5:]` slice written out (`Strings.PyTail`). It is proved equal to a plain
  statement: no `"Telco "`, no `"Telco, "`, and no `"Telco"` at the end.
- **Case table** (`Cases`): the dict built in `get_cases`. It is modelled as the
  dict's entries in iteration order, because a Python dict keeps a key where it
  was first inserted. Re-assigning a key replaces the whole record in place.
- **Resolution** (`Resolver`): the two loops of `get_bugzillas`. The link
  endpoint (case number to listed bug numbers) and `getbug` (bug number to bug
  id, bug id to whiteboard) are inputs given as maps. A missing key is the
  exception the script lets escape, modelled as `Failure`.
- **Tagging** (`Tagger`): the `tag_bugzillas` loop as a fold over the id list
  on a map from bug id to whiteboard. A failed `getbug` stops the batch, and
  the updates already made stay made.
- **Run** (`Pipeline`): `main` with the `--modify` flag as a boolean. Its
  central lemma says that after a tagging run, a second run reports nothing.

The network, the token exchange, the JSON decoding and the bug-tracker client
are not modelled; they are replaced by the input maps and sequences above.

Two consequences of the script's code are worth stating:

- The tag check tests substrings, not whole words: `"NotTelco"` and
  `"xTelco y"` count as tagged (`TagCheck.TagInsideWordCounts`).
- The case table is keyed by case number, so a repeated number gives one
  entry, in its first position, holding the last record
  (`Cases.ReplacedRecordDropsBug`).

## Model

| member | source | states |
|---|---|---|
| Strings.Contains | bz_script.py:79 | Python's `p in s` holds exactly when `p` occurs at some index of `s` |
| Strings.PyTailIsEndsWith | bz_script.py:79 | comparing `w[-n:]` with a string of length `n > 0` is the same as testing that `w` ends with it, short strings included |
| TagCheck.NeedsTagIff | bz_script.py:79 | a whiteboard is reported as untagged iff "Telco " occurs nowhere, "Telco, " occurs nowhere, and it does not end with "Telco" |
| TagCheck.ShortWhiteboardNeedsTag | bz_script.py:79 | every whiteboard shorter than five characters is reported as untagged |
| TagCheck.SingleWordNeedsTag | bz_script.py:79 | in a whiteboard without spaces only the suffix position counts, so it is untagged iff it does not end with "Telco" |
| TagCheck.TaggedExamples | bz_script.py:79 | "Telco foo", "foo Telco" and "Telco, foo" are recognised as tagged |
| TagCheck.UntaggedExamples | bz_script.py:79 | "Telcofoo", "telco", "other" and the empty whiteboard are reported as untagged |
| TagCheck.TagInsideWordCounts | bz_script.py:79 | the check matches substrings, not whole words: "NotTelco" and "xTelco y" count as tagged |
| TagCheck.StartsWithTagSpace | bz_script.py:79 | any whiteboard that starts with "Telco " counts as tagged |
| TagCheck.Tagged | bz_script.py:94 | the new whiteboard starts with "Telco ", ends with the old one, is 6 characters longer, and counts as tagged |
| Cases.ReadAll | bz_script.py:41-47 | reading succeeds iff every document is readable; otherwise it fails with the error of the first unreadable document |
| Cases.Lookup | bz_script.py:68 | a key is found iff it is among the table's case numbers, and the record found carries that number |
| Cases.Put | bz_script.py:42-44 | storing under an existing key leaves the key sequence as it was; storing under a new key appends the record at the end |
| Cases.PutDistinct | bz_script.py:42-44 | storing a record never makes a key appear twice |
| Cases.LookupPut | bz_script.py:42-44 | after storing, the stored key reads back the new record and every other key reads back its old record |
| Cases.CaseMapKeys | bz_script.py:40-47 | the table's keys are exactly the case numbers of the records read |
| Cases.CaseMapLast | bz_script.py:40-47 | each key holds the record of the last document with that number, so a later document drops an earlier bug |
| Cases.CaseMapOrder | bz_script.py:40-47 | the table iterates its keys in order of first appearance among the documents |
| Cases.GetCases | bz_script.py:40-48 | the fold succeeds iff every document is readable, fails naming the missing field of the first unreadable one, and yields distinct keys |
| Cases.GetCasesKeys | bz_script.py:40-47 | the keys of the result are exactly the case_number values of the input documents |
| Cases.GetCasesLast | bz_script.py:42-47 | the record under a number has the status of the last document with it, and a bug iff that document has case_bugzillaNumber |
| Cases.ReplacedRecordDropsBug | bz_script.py:42-47 | a case seen first with a bug and then without one ends with no bug and keeps its first position |
| Resolver.EligibleCases | bz_script.py:67-68 | the cases kept are exactly those with a bug whose status is not "Closed" |
| Resolver.EligibleCasesOne | bz_script.py:68 | a single case is kept iff it has a bug and is not "Closed" |
| Resolver.EligibleCasesAppend | bz_script.py:67-68 | filtering a concatenation of tables is filtering each part in turn, so kept cases stay in table order, each once |
| Resolver.LinkRecords | bz_script.py:69-71 | each kept case is paired, in order, with the bug numbers its link request returns |
| Resolver.FetchLinks | bz_script.py:67-71 | the link phase succeeds iff every eligible case gets an answer, and then yields exactly the eligible cases in table order with their links |
| Resolver.FetchLinksIgnoresIneligible | bz_script.py:68-71 | cases without a bug or with status "Closed" get no link request: their answers do not affect the outcome |
| Resolver.AllRefsMembers | bz_script.py:76-77 | a bug number is visited iff some fetched case lists it |
| Resolver.AllRefsOne | bz_script.py:77 | one fetched case contributes its bug numbers in link order |
| Resolver.AllRefsAppend | bz_script.py:76-77 | visiting a concatenation of case lists visits the first list's numbers and then the second's, so order and repetitions follow case order, then link order |
| Resolver.CollectRefs | bz_script.py:77-80 | collection succeeds iff every bug number resolves, and every id returned belongs to a bug whose whiteboard is untagged |
| Resolver.CollectRefsFailure | bz_script.py:78 | a failed collection names a listed bug number that the tracker cannot return |
| Resolver.CollectRefsCounts | bz_script.py:77-80 | an untagged bug is reported once per bug number resolving to it, duplicates kept; a tagged bug is never reported |
| Resolver.CollectOne | bz_script.py:78-80 | a single bug number is reported iff its bug is untagged |
| Resolver.CollectRefsAppend | bz_script.py:76-80 | collecting over the concatenation of two runs of numbers gives the first run's failure, else the second run's failure, else both id lists in order |
| Resolver.CollectUntagged | bz_script.py:75-81 | the nested loop over cases and then links equals one pass over all linked numbers in case order, then link order |
| Resolver.GetBugzillas | bz_script.py:60-81 | a failed link request ends the run before any bug lookup; otherwise success iff every looked-up number resolves; every id returned is untagged |
| Resolver.GetBugzillasCounts | bz_script.py:60-81 | the result holds each untagged bug once per listing on an eligible case, and nothing else |
| Tagger.TagBugzillas | bz_script.py:92-95 | the batch keeps the tracker's ids; it completes iff every listed id exists, and otherwise stops at a listed id that is missing |
| Tagger.PrefixesSwap | bz_script.py:94 | one more "Telco " can be added at either end of a run of them |
| Tagger.PrefixesStep | bz_script.py:94 | tagging a whiteboard that already has n prefixes gives n + 1 prefixes |
| Tagger.PrefixedIsTagged | bz_script.py:94 | a whiteboard with at least one "Telco " in front counts as tagged |
| Tagger.TagBugzillasEffect | bz_script.py:92-95 | a completed batch gives each bug one "Telco " per occurrence of its id in the list and leaves other bugs unchanged |
| Tagger.TagBugzillasTags | bz_script.py:92-95 | after a completed batch each listed bug counts as tagged and each unlisted bug is unchanged |
| Tagger.TagBugzillasAbort | bz_script.py:92-95 | a batch that stops at an id has applied exactly the updates for the ids before it, and all of those ids existed |
| Tagger.DuplicateTaggedTwice | bz_script.py:92-95 | an id listed twice ends up as "Telco Telco " followed by its old whiteboard |
| Pipeline.Run | bz_script.py:104-119 | a run succeeds iff the case fold and the resolution succeed; it reports only untagged bugs; without the flag the tracker is untouched; with the flag the batch completes |
| Pipeline.RunTagsReported | bz_script.py:114-119 | after a run with the flag every reported bug counts as tagged and every other bug is unchanged |
| Pipeline.CollectAfterTagging | bz_script.py:75-95 | collecting again over the same bug numbers after tagging what was reported finds nothing |
| Pipeline.RerunReportsNothing | bz_script.py:104-119 | running the script again after a run with the flag succeeds and reports an empty list |
| Pipeline.ExampleCases | bz_script.py:40-48 | the two example documents give an open case 123 with bug 456 and a closed case 124 with bug 457 |
| Pipeline.ExampleLinks | bz_script.py:67-71 | only the open case is looked up |
| Pipeline.ExampleCollect | bz_script.py:77-80 | bug 456 with whiteboard "other" is reported |
| Pipeline.ExampleTagging | bz_script.py:92-95 | tagging bug 456 with whiteboard "other" completes and writes "Telco other" |
| Pipeline.ExampleBugzillas | bz_script.py:60-81 | the example's bug list is exactly [456] |
| Pipeline.EndToEndExample | bz_script.py:104-119 | the example run reports [456] and, with the flag, writes "Telco other" as the whiteboard of bug 456 |

## Left out

- `get_token` and every HTTP request (token exchange, case search, per-case
  link request): network I/O and JSON decoding. They are replaced by a sequence
  of search documents and a map from case number to the listed bug numbers.
- The search query text, `partnerSearch` and the 5000-row cap: the server
  applies them. The model starts from whatever documents the search returned.
- The python-bugzilla client: `getbug` is a map from bug number to id plus a
  map from id to whiteboard; `build_update` and `update_bugs` are one map
  update per id. A server that rejects an update is not modelled; only a failed
  `getbug` stops the batch.
- Link entries without a `bugzillaNumber` field: each link answer is modelled
  as the list of bug numbers already extracted, so the KeyError it would raise
  is not modelled.
- JSON value types: every document field is a string.
- Logging, `time.time()` and the tqdm progress bars: they have no effect on
  results.
- The argparse parsing and the `print` in `main`. The printed list is the
  `untagged` field of `Pipeline.Run`'s report, and the `--modify` flag is its
  `apply` parameter.
- Changes made to the tracker by others between collection and tagging: the
  model reads one tracker state throughout a run.
- Resolver.FetchLinks: its contract names some eligible case whose link
  request failed, not necessarily the first one. The function itself stops at
  the first such case, and either way the run aborts.
- Resolver.CollectRefsFailure: names some bug number the tracker cannot
  return, not necessarily the first one. The function itself stops at the
  first such number.
