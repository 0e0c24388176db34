# Verified model of Jevitate's deterministic core

Jevitate drives browsers and models, but what it promises rests on plain logic: how it serialises and
reuses proof, scrubs text, packs a bundle, accounts for spend, gates a run and brackets state. This
project models that logic in Dafny and proves what holds of it for every input, run or reachable state.

`dafny verify dfyconfig.toml` checks everything.

| part | modules |
|---|---|
| canonical JSON, its decoder, evidence identity and reuse | `Json`, `CanonicalJson`, `CanonicalRoundTrip`, `CanonicalForm`, `Evidence` |
| secret forms and what they are, the scrub and the check that re-reads it, URL redaction | `Characters`, `CharacterLaws`, `SecretForms`, `Spellings`, `JsonText`, `Redaction`, `RedactionMeaning`, `RedactionProofs`, `RedactionOrder`, `RedactionAlone`, `RedactionShort`, `RedactionPayload`, `RedactUrl`, `RedactUrlLaws` |
| the bundle's media packer, exported personas, machine baselines | `MediaPacker`, `MediaPackerProofs`, `MediaPackerContents`, `MediaPackerTravel`, `MediaPackerRoom`, `PersonaExport`, `ExportLaws`, `StepTiming`, `Baselines`, `BundleBaselines`, `BaselineLaws` |
| the usage ledger, the suite budget, the check loop and its gate | `Lists`, `Usage`, `UsagePrices`, `UsageLaws`, `UsageSums`, `Budget`, `BudgetLaws`, `CheckRun`, `RunLaws`, `GateLaws` |
| the editor fixture's saves | `SaveProtocol` |
| the campaign runner | `Campaign`, `CampaignLaws`, `CampaignReports` |
| catalog files and approvals written back, references, approval channels, git ranges | `CatalogFile`, `CatalogReading`, `CatalogFileLaws`, `CatalogRefs`, `Approvals`, `ApprovalLaws`, `ChangeRange`, `ChangeRangeLaws` |

Code that updates state is a class or a loop (`Packer`, `UsageTracker`, `BudgetMeter`, `EditorServer`,
`Runner`, `StepTimer`, `File`, and the loops of the scrub, the walk up a parent chain, the check and the
reports). Each such method is proved equal to a function of its inputs and old state, and the laws are
proved of that function. Laws named `...Exactly` say when and what in the program's terms, with its own limits
and alphabets written out, and without the functions that compute it. A hash is an arbitrary function; where identity is claimed it is injective, and
where an approval is written back nothing is assumed of it. Money, time and prices are reals. Fixtures,
replays, missions, forges, terminals and the network are arbitrary functions of the moment they are asked.

## Where the code differs from what one would expect

Each of these is proved, and unless a line says otherwise with the exact condition under which the expected
property does hold.

- A canonical number can run on into digits that follow it, so a text is decoded whatever follows it
  exactly when it is delimited (`CanonicalLeftInverse`). Inside arrays and objects it always is.
- A manifest's content digest is made without a secret, and its key is never compared with the input it
  records. A changed version or outcome is always seen. A change of the recorded input or result digests is
  seen exactly when the content digest was not computed again, and a changed key unless it is the asked
  input's own and the digest was computed again: so a manifest made from one input can be reused for another
  (`TamperedRuns`, `ResealedIsReused`, `ReaddressedIsReused`).
- The scrub does not pass its own check with every secret. Alone, one of at least six characters passes on
  every text exactly when it does not overlap the mask `«redacted»` in any position (`StrongAlone`, `MarkFails`).
  A shorter one without a percent sign does exactly when it starts with an ASCII letter or digit and ends with
  a letter or digit, or starts with neither and ends with `-`, `_` or `.` (`ShortAlone`): `@bob` survives in
  `@bob@bob` (`TwiceFails`). A blank one is left where it stands, and found (`NonBlankNeeded`).
- A whole list passes on every text when no secret is blank, the short ones all start and end, in every form,
  with letters or digits or all with neither, no long one overlaps the mask, and each short one listed before
  a long one whose masking could bare it is listed again after it (`ScrubSatisfiesProof`). A long one within
  the mask fails in any list (`PartOfMaskFails`). The order is exact for all lists of letters and digits
  outside the mask (`OrderIsExact`); for other lists it is only shown to suffice.
- A secret is found in its spellings with hexadecimal digits all in upper or all in lower case, escaped exactly as
  one of three alphabets asks; one that mixes cases or escapes more is another text (`FormsExactly`,
  `FoundExactly`).
- A long secret in a structured payload is looked for in the JSON text only. It is always found if JSON escapes
  none of its characters, or if a spelling of it is there; its raw value can be missed otherwise, and one with
  a quotation mark between letters is (`StrongSecretsInStringsLeak`, `QuotedSecretIsMissed`).
- `rawPersonaFields` says that it drops `name` and `id`, but in the map form of the personas file it keeps
  them. An entry that holds a `name`, or another `id`, travels with an approval whose hash the reader
  cannot recompute (`CurrentApprovalRecomputes`, `NamedMapEntryFails`).
- A range `a..b` is read back as it was printed exactly when `a` does not end and `b` does not start with a
  dot; for `a...b` only `a` matters, and then `b` may even be 201 characters long (`ParseUndoesPrint`).
- The typed confirmation accepts any prefix of the content hash from 8 characters on, not just the first 8,
  and CI is only recognised among the first twenty markers (`Confirm`, `CiIsSeenAmongTwenty`,
  `CiPastTwentyIsMissed`).
- In a report over several catalogs only the first item of a kind and id is judged (`ApprovalsReport`).

## Model

| member | source | states |
|---|---|---|
| CanonicalRoundTrip.CanonicalLeftInverse | packages/cli/src/check-evidence.ts:72-78 | A decoder recovers every JSON value, objects as unordered maps, from its canonical text and what follows it, exactly when the text is delimited |
| CanonicalRoundTrip.CanonicalInjective | packages/cli/src/check-evidence.ts:72-78 | Two values print the same text if and only if they are equal with objects as unordered maps |
| CanonicalRoundTrip.InsertionOrderIrrelevant | packages/cli/src/check-evidence.ts:72-78 | The order in which an object's keys were inserted never changes its text |
| CanonicalForm.CanonicalExactly | packages/cli/src/check-evidence.ts:72-78 | The text itself: an array is its items and an object its members, in the order of their keys, with commas and nothing else between them |
| CanonicalForm.KeyOrderExactly | packages/cli/src/check-evidence.ts:76-77 | Keys come in the order of their UTF-16 code units |
| CanonicalForm.EscapeExactly | packages/cli/src/check-evidence.ts:74-77 | Which characters of a string are escaped, and how |
| Evidence.KeyIdentifiesInput | packages/cli/src/check-evidence.ts:80-86 | Under an injective hash two proof inputs have one evidence key if and only if they are equal as JSON values |
| Evidence.DigestIdentifiesContent | packages/cli/src/check-evidence.ts:107-111 | Likewise for a manifest's content digest and its version, key, input, outcome and result digests |
| Evidence.InputJsonExactly | packages/cli/src/check-evidence.ts:80-82 | Which members the key's text has, by name |
| Evidence.InputsJsonExactly | packages/cli/src/check-evidence.ts:80-82 | And those of the inputs |
| Evidence.UnsignedJsonExactly | packages/cli/src/check-evidence.ts:107-111 | Which members the content digest's text has, by name: all of the manifest but that digest |
| Evidence.MismatchReasonsExact | packages/cli/src/check-evidence.ts:88-105 | A reason is given exactly for each changed part, and none exactly for equal inputs |
| Evidence.ReuseExact | packages/cli/src/check-evidence.ts:84-141 | A manifest made from one input is reused for another if and only if they are equal; otherwise the non-empty reasons are exactly the changed parts, so never a bare key mismatch |
| Evidence.SkipsExactly | packages/cli/src/check-evidence.ts:126-141 | Any manifest at all is reused exactly when its version is 1, its outcome `pass`, its key that of the asked input and its content digest that of its content |
| Evidence.RefusalExactly | packages/cli/src/check-evidence.ts:88-141 | Why any other is not reused: the first of missing, version, outcome, the changed parts or a bare key mismatch, and tampering |
| Evidence.TamperedRuns | packages/cli/src/check-evidence.ts:126-141 | Any manifest against the one made, whatever differs: a changed version or outcome runs; a changed key runs unless it is the asked input's own and the digest was computed again; a change of only the content or only its digest runs; a change of both is reused exactly when the key fits and the digest is that of the changed content |
| Evidence.ResealedIsReused | packages/cli/src/check-evidence.ts:127-140 | With the content digest computed again, any other recorded input and result digests are reused under the old key |
| Evidence.ReaddressedIsReused | packages/cli/src/check-evidence.ts:127-140 | Under another input's key, with the digest computed again, a manifest made from one input is reused for that other one |
| SecretForms.FormsAscii | packages/ai-core/src/credential-guard.ts:143-155 | Every form of a secret but its raw value is ASCII |
| SecretForms.LetterFormIsSecret | packages/ai-core/src/credential-guard.ts:143-155 | A form made of letters and digits only is the secret itself, so no encoding brings forth a new word |
| SecretForms.LettersHaveOneForm | packages/ai-core/src/credential-guard.ts:143-155 | A secret of letters and digits has exactly one form |
| Spellings.FormsExactly | packages/ai-core/src/credential-guard.ts:143-155 | The forms of a secret are exactly the secret and its spellings, character by character, in the alphabets of `encodeURIComponent`, RFC 3986 and form values, with UTF-8 escapes all in upper or all in lower case |
| Spellings.SpellingDecodes | packages/ai-core/src/credential-guard.ts:143-155 | Each spelling is read back as the secret by a percent and UTF-8 decoder that takes digits of either case, with plus for space in form values |
| Spellings.SpellingIsFound | packages/ai-core/src/credential-guard.ts:128-131 | A strong secret is found in every text that holds a spelling of it |
| CanonicalForm.StringifyExactly | packages/ai-core/src/credential-guard.ts:71-71 | The JSON text of a payload: the canonical one but for the order of members, which is that of their insertion |
| JsonText.VisitsAll | packages/ai-core/src/credential-guard.ts:76-87 | Every string and every key of a JSON value, however deep, is among the leaves that are checked |
| Redaction.RedactTextLoop | packages/ai-core/src/redaction.ts:18-26 | The nested loops compute the scrub: one pass per secret, in order |
| Redaction.ReplaceFormsLoop | packages/ai-core/src/redaction.ts:23-23 | The loop over one strong secret's forms replaces each in turn |
| RedactionMeaning.PassMasksOnly | packages/ai-core/src/redaction.ts:18-26 | One secret's pass masks nothing but occurrences of the secret and its spellings; all between them stays |
| RedactionMeaning.FirstMasked | packages/ai-core/src/redaction.ts:23-23 | Occurrences are masked from the left: the first, then the first in what follows it |
| RedactionMeaning.BlankExactly | packages/ai-core/src/redaction.ts:21-21 | A secret is passed over exactly when trimming leaves nothing of it |
| Redaction.AssertNoSecretInPayload | packages/ai-core/src/credential-guard.ts:65-96 | No error exactly when no non-empty secret is in the payload, text or serialised, or, if short, in one of its strings or keys; otherwise the first such secret |
| RedactionMeaning.FoundExactly | packages/ai-core/src/credential-guard.ts:98-131 | A text contains a secret exactly when it or a spelling of it stands in the text, anywhere for six code units or more, and else with no letter or digit on either side |
| RedactionPayload.LeaksExactly | packages/ai-core/src/credential-guard.ts:70-94 | Where the guard finds a secret: in a text, in the JSON text of a value, and a short one also in a single string or key of it; and nowhere else but in array positions and the empty root key, which are read too |
| Redaction.ShortSecretsInStringsLeak | packages/ai-core/src/credential-guard.ts:72-94 | A short secret in any string or key of a structured payload is found, however JSON escapes it |
| RedactionPayload.StrongSecretsInStringsLeak | packages/ai-core/src/credential-guard.ts:71-94 | A strong secret in any string or key of a structured payload is found, unless JSON escapes one of its characters and only its raw value is there |
| RedactionPayload.QuotedSecretIsMissed | packages/ai-core/src/credential-guard.ts:71-94 | A strong secret with a quotation mark between letters or digits is not found in a payload that is that very string |
| Redaction.RedactContext | packages/ai-core/src/redaction.ts:85-89 | Returns the scrubbed text exactly when no secret is left in it |
| RedactionPayload.ProvenExactly | packages/ai-core/src/redaction.ts:85-89 | None of the secrets but empty ones may be left |
| RedactionProofs.NothingNew | packages/ai-core/src/redaction.ts:18-26 | An occurrence, in the masked text, of a form that overlaps the mask nowhere was there before the masking: none spans an inserted mask |
| RedactionProofs.NoNewToken | packages/ai-core/src/credential-guard.ts:120-126 | Masking the tokens of one short secret, in all its forms, removes it and makes no token of another, when all their ends are letters or digits or none is |
| RedactionProofs.CleanTextUnchanged | packages/ai-core/src/redaction.ts:11-26 | Text that holds no secret passes the scrub unchanged |
| RedactionProofs.ScrubLeavesNothing | packages/ai-core/src/redaction.ts:18-26 | The scrub of every text leaves no secret, for lists in which none is blank, the short ones have ends of one kind in every form, no strong one overlaps the mask, and each weak one before a strong one that could bare it is listed again |
| Spellings.NoSpellingLeft | packages/ai-core/src/redaction.ts:18-26 | So no spelling of a strong secret of such a list is left in any scrubbed text |
| RedactionProofs.ScrubSatisfiesProof | packages/ai-core/src/redaction.ts:80-89 | For such lists, where strong secrets may also lie within the mask, the scrub passes its check on every text if and only if none does |
| RedactionProofs.StrongFirstIsOrdered | packages/ai-core/src/redaction.ts:18-26 | A list with its strong secrets first is in that order |
| RedactionOrder.OrderIsExact | packages/ai-core/src/redaction.ts:18-26 | For every list of secrets of letters and digits outside the mask, repeats included, the scrub passes its check on every text if and only if the list is in that order |
| RedactionProofs.PartOfMaskFails | packages/ai-core/src/redaction.ts:80-89 | A strong secret that is part of the mask survives its own scrub, whatever else is registered |
| RedactionOrder.StrongFirstNeeded | packages/ai-core/src/redaction.ts:18-26 | For every short and every strong letter secret, listed in that order and no more, there is a text the scrub fails on |
| RedactionOrder.NonBlankNeeded | packages/ai-core/src/redaction.ts:21-21 | A blank secret is passed over by the scrub and found by the check |
| RedactionAlone.StrongAlone | packages/ai-core/src/redaction.ts:18-26 | A strong secret registered alone is removed from every text if and only if it cannot overlap the mask, whichever of its seven forms are masked |
| RedactionAlone.MarkFails | packages/ai-core/src/redaction.ts:18-26 | A strong secret that starts with `»` or ends with `«` survives its own scrub on some text |
| RedactionShort.ShortAlone | packages/ai-core/src/credential-guard.ts:120-126 | A short secret registered alone is removed from every text if it starts with an ASCII letter or digit and ends with a letter or digit, or starts with neither and ends with `-`, `_` or `.`; without a percent sign in it, only then |
| RedactionShort.TwiceFails | packages/ai-core/src/redaction.ts:18-26 | A short secret without a percent sign, of which one end is a letter or digit and the other is not, survives in itself written twice |
| RedactUrl.SecondScanAgrees | packages/ai-core/src/redaction.ts:58-78 | The result is the text's pieces with only the values of sensitive parameters masked, and scanning it finds the same separators and names in the same places |
| RedactUrl.PiecesCover | packages/ai-core/src/redaction.ts:58-78 | The pieces the scan cuts a text into are together the text, so what is not masked is kept |
| RedactUrl.RedactUrlIdempotent | packages/ai-core/src/redaction.ts:74-78 | Redacting again changes nothing, for every string |
| RedactUrl.NoSensitiveValueLeft | packages/ai-core/src/redaction.ts:68-78 | No sensitive parameter of the result keeps a value but the mask or the empty one |
| RedactUrlLaws.ParameterMasked | packages/ai-core/src/redaction.ts:28-78 | Wherever a parameter stands that `&`, `;` or `#` introduces, or that is the first of its text, its value is masked exactly when it is not empty and its name, decoded and in lower case, is one of the seventeen; what stands before and behind is redacted on its own |
| RedactUrlLaws.ScannedIsParameter | packages/ai-core/src/redaction.ts:58-58 | Nothing but such a parameter, with all of its value, is scanned as one |
| RedactUrlLaws.NoParameterNoChange | packages/ai-core/src/redaction.ts:74-78 | Text in which none starts is left as it is |
| MediaPacker.Packer.Take | packages/cli/src/catalog-bundle.ts:791-808 | The inner `take` on the two lists and the total |
| MediaPackerTravel.TakeExactly | packages/cli/src/catalog-bundle.ts:791-808 | A file is taken exactly when it is verified, at most 2 MiB, 50 MiB or 256 KiB by type, and leaves at most 4000 files and 512 MiB; it comes last, as it was verified |
| MediaPackerTravel.StepExactly | packages/cli/src/catalog-bundle.ts:809-818 | A step's screenshot travels exactly when it is named `step-`, two or three digits, `.png`, and has room |
| MediaPacker.Packer.TakeClips | packages/cli/src/catalog-bundle.ts:819-841 | The video, its subtitles and the rollback |
| MediaPackerTravel.ClipsExactly | packages/cli/src/catalog-bundle.ts:819-841 | A video travels exactly when it has room and the subtitles its demo names are verified and have room after it; they travel with it and never alone |
| MediaPacker.Packer.BundleDemos | packages/cli/src/catalog-bundle.ts:747-860 | The whole loop, sorting and truncation, on the packer's state |
| MediaPackerProofs.TakeLists | packages/cli/src/catalog-bundle.ts:791-808 | A take keeps every limit, the running total and the lockstep of the two lists, and lists exactly the path it returns |
| MediaPackerProofs.UntakeRestores | packages/cli/src/catalog-bundle.ts:833-836 | Splicing out what was just taken restores both lists and the total, when its path was not listed before |
| MediaPackerProofs.ClipsList | packages/cli/src/catalog-bundle.ts:819-841 | A video and the subtitles it declares are listed together, or the state is what it was before the video |
| MediaPackerProofs.EveryStateLists | packages/cli/src/catalog-bundle.ts:754-852 | In every state of the loop `files` and `media` are in lockstep, `total` is the sum of the listed bytes, every limit holds, and the listing is exactly what the exported demos refer to, in order |
| MediaPackerProofs.TruncateLists | packages/cli/src/catalog-bundle.ts:853-858 | The same of the result after truncation to the demo limit: exactly the files of the kept demos stay |
| MediaPackerProofs.BundleListsExactly | packages/cli/src/catalog-bundle.ts:747-860 | The same of the finished bundle, for one demo per Journey in any order; no demo has subtitles without a video |
| MediaPackerProofs.ListedOnce | packages/cli/src/catalog-bundle.ts:754-852 | When each demo's screenshots have names of their own, no file is listed twice |
| MediaPackerContents.EveryFileIsSourced | packages/cli/src/catalog-bundle.ts:790-808 | In every state each listed file and its copy have the digest, size, type and source that its own demo's verified media give for its name |
| MediaPackerContents.ExportsExactly | packages/cli/src/catalog-bundle.ts:754-851 | The demos exported are exactly those with an approved, unchanged Journey, that version, 1 to 200 steps and sound captions, each with its own numbers, captions, expected results and title |
| MediaPackerContents.SortedByJourney | packages/cli/src/catalog-bundle.ts:753-753 | They come in UTF-16 order of their Journeys, whatever order they came in |
| MediaPackerContents.BundleContents | packages/cli/src/catalog-bundle.ts:747-860 | All this of the finished bundle, truncated to its first 1000 demos |
| MediaPackerTravel.TravelsExactly | packages/cli/src/catalog-bundle.ts:754-858 | Exactly the demos travel whose Journey is exported, approved as the version rendered from and unchanged since, with 1 to 200 steps and sound captions, or 1000 of them when there are more |
| MediaPackerRoom.NothingNeedlesslyLeftOut | packages/cli/src/catalog-bundle.ts:791-841 | When everything the exported demos ask for fits the bundle, everything asked for is exported, in order |
| Usage.PriceCall | packages/ai-core/src/usage.ts:222-244 | A call has a price or the text that says why not: never both, never neither |
| UsagePrices.FirstPrices | packages/ai-core/src/usage.ts:222-232 | A reported cost wins over everything; then a failed attempt without usage has no price; then a judgment has the unit price |
| UsagePrices.ModelPrices | packages/ai-core/src/usage.ts:233-244 | Then the configured rate of the model, then nothing for the fake model, then the rate in the table of that kind of call, else no price |
| UsagePrices.CostOfAMillion | packages/ai-core/src/usage.ts:213-215 | A million tokens read cost the model's input rate, a million written its output rate |
| UsagePrices.CostsAddUp | packages/ai-core/src/usage.ts:213-215 | Costs add up over the tokens of both kinds |
| UsagePrices.CostsScale | packages/ai-core/src/usage.ts:213-215 | And scale with them |
| UsagePrices.ShippedRates | packages/ai-core/src/usage.ts:50-95 | The rates that ship |
| Usage.PriceNonNegative | packages/ai-core/src/usage.ts:213-244 | With non-negative prices no call costs less than nothing |
| Usage.SummarizeCalls | packages/ai-core/src/usage.ts:257-301 | The summing loop is one fold over the calls |
| UsageLaws.TotalsExact | packages/ai-core/src/usage.ts:250-301 | The totals by an independent account: counts and sums over the calls of each kind, a cost per kind over its priced calls and in total over all, and the class `full` exactly when there are calls and each is priced |
| Usage.UsageTracker.Record | packages/ai-core/src/usage.ts:321-336 | Appends one entry, numbered by its place, and changes nothing before it |
| Usage.UsageView.Snapshot | packages/ai-core/src/usage.ts:346-358 | A view's snapshot is the fold over the entries from where it was taken |
| Usage.SumUsage | packages/ai-core/src/usage.ts:432-493 | The loop over runs' snapshots is one fold over the runs |
| UsageLaws.SumOfRunsIsWhole | packages/ai-core/src/usage.ts:432-493 | Cut anyhow into consecutive runs, the sum of their snapshots is the snapshot of the whole: counts, tokens, costs, failures, class and de-duplicated lists |
| UsageSums.SumExactly | packages/ai-core/src/usage.ts:432-493 | Of any runs, also read back ones: counts and tokens add up over those that reported; the others are counted |
| UsageSums.CostsExactly | packages/ai-core/src/usage.ts:432-493 | Costs add up by kind, a total without kinds as generation; the sum is `full` exactly when there are calls and a cost, no run was underpriced, and no silent run counts |
| UsageSums.GapsExactly | packages/ai-core/src/usage.ts:432-493 | Every gap and every price source is named, once |
| UsageLaws.ViewExact | packages/ai-core/src/usage.ts:346-376 | For every interleaving of records and scopes a view holds exactly the calls since it was taken, and what it held before is a prefix |
| UsageLaws.Numbered | packages/ai-core/src/usage.ts:321-336 | Calls are numbered 1 to n in order, and each has a price or a reason |
| UsageLaws.Replay | packages/ai-core/src/usage.ts:309-376 | The class with its live views does what those runs say |
| UsageLaws.SnapshotGrows | packages/ai-core/src/usage.ts:250-301 | More calls never lower a total and never make an incompletely priced one complete |
| Budget.BudgetMeter.Charge | packages/cli/src/check-budget.ts:56-71 | The meter's whole state after a charge, and the first limit exceeded |
| BudgetLaws.ChargeExactly | packages/cli/src/check-budget.ts:40-71 | A charge adds its actions; it finds exceeded what was before, else the first of actions, time and money that is over its limit |
| Budget.BudgetMeter.Blocked | packages/cli/src/check-budget.ts:74-85 | Why another item may not start |
| BudgetLaws.MayStartExactly | packages/cli/src/check-budget.ts:40-85 | An item may start exactly when nothing was exceeded before, the actions are below their limit, fewer than `maxMinutes` times 60000 milliseconds have passed, and the cost of the calls made is known and below `maxUsd` |
| Budget.SpendGrows | packages/cli/src/check-budget.ts:49-53 | A measured spend never falls, and an unmeasurable one never becomes measurable |
| Budget.TrackerIsSound | packages/ai-core/src/usage.ts:222-336 | With non-negative prices and reports, every ledger a tracker can show has each call priced at no negative cost or says why not |
| Budget.LedgersExtend | packages/ai-core/src/usage.ts:309-336 | What such a tracker shows later extends what it showed before |
| Budget.BlockedForever | packages/cli/src/check-budget.ts:73-85 | Once refused, refused at every later time, for one tracker read at two moments of any run of it, whatever was recorded and charged in between |
| Budget.RefundUnblocks | packages/cli/src/check-budget.ts:49-85 | A negative reported cost does unblock: with 5 spent of 5 an item is refused, and after a call of -5 it may start |
| Budget.CapHolds | packages/cli/src/check-execute.ts:140-146 | An item that may start and keeps to its cap cannot take the suite past its action limit |
| BudgetLaws.CapExactly | packages/cli/src/check-execute.ts:140-146 | The cap is the smaller of an item's own limit and what remains, but at least one action |
| CheckRun.ItemLoop | packages/cli/src/check-api.ts:237-264 | The loop over the items on a live meter |
| RunLaws.RunsExactly | packages/cli/src/check-api.ts:237-264 | An item runs exactly when it is planned, no earlier charge found a limit exceeded, and the actions, money and time taken so far leave room |
| CheckRun.RefusedForever | packages/cli/src/check-api.ts:239-264 | Once one item is refused, every later item that would run is refused, for one tracker read as the loop goes |
| CheckRun.OnlyLastOvershoots | packages/cli/src/check-api.ts:248-262 | Whatever the items do, before the last executed one the suite is under its action limit |
| CheckRun.CappedRunStaysWithin | packages/cli/src/check-api.ts:254-262 | If every item keeps to its cap, the suite's actions never pass the limit |
| CheckRun.VerdictsPartition | packages/cli/src/check-api.ts:480-488 | The summary's counts add up to the items |
| CheckRun.GatingExact | packages/cli/src/check-api.ts:300-311 | The gating findings are exactly those the rule selects |
| GateLaws.ExitOneExactly | packages/cli/src/check-api.ts:285-404 | A check exits 1 exactly when some finding is hard, or advisory where the suite gates those, and was not in the baseline under its first known member key, or else its own |
| GateLaws.NewHardFindingFails | packages/cli/src/check-api.ts:300-311 | A hard finding of which the baseline knows no key makes every check exit 1, whatever the policy |
| CheckRun.PassedRan | packages/cli/src/check-api.ts:313-330 | Only an item that ran, with no gating finding of its own, passes |
| GateLaws.VerdictExactly | packages/cli/src/check-api.ts:313-330 | An item that ran is in error, else failed exactly by such a finding in its own run or a brittle locator of its own, else pending if it healed for review, else passed |
| CheckRun.GateFailsClosed | packages/cli/src/check-api.ts:395-404 | The exit code exactly: a gating finding, else an error or a spent budget, else a pending review, else 0 if and only if every item passed or was skipped within every limit |
| CheckRun.CleanExitRanEverything | packages/cli/src/check-api.ts:239-404 | A check that exits 0 ran every planned item, refused none and stayed within its action limit |
| RunLaws.CleanExitWithinLimits | packages/cli/src/check-api.ts:239-404 | And at every charge it was within its limits on actions, time and money |
| SaveProtocol.EditorServer.Put | apps/example-site/src/server.ts:325-337 | The handler's new state and status, for a body with or without a text and a number |
| SaveProtocol.PutExactly | apps/example-site/src/server.ts:325-337 | A save of a known block with a text is stored exactly when it has no number or one no lower than the last stored |
| SaveProtocol.NewestIsMaximum | apps/example-site/src/server.ts:302-310 | The newest save of a block is the highest number delivered |
| SaveProtocol.SavesConverge | apps/example-site/src/server.ts:324-337 | In every run, in whatever order and however often saves are delivered, each block holds its newest delivered save, or its first text |
| SaveProtocol.AllDelivered | apps/example-site/src/server.ts:302-337 | Once every save of a block was delivered it holds the user's last edit |
| Campaign.Runner.Restored | packages/cli/src/campaign-api.ts:463-478 | The bracket of setup, body and restore, with every way each can throw |
| Campaign.Runner.RunCampaign | packages/cli/src/campaign-api.ts:480-622 | Host check, targets, discovery, refusal and the nested mission loops, as events and as an outcome |
| CampaignReports.ReplayReported | packages/cli/src/campaign-api.ts:502-522 | What is reported of a replay: ok exactly when it ended `ok`, stale with any other ending, an error when it failed or its setup did; and the problems it adds |
| CampaignReports.MissionReported | packages/cli/src/campaign-api.ts:551-619 | What is reported of a mission: skipped, misconfigured by its setup, failed, or run with the outcome the exploration gave |
| CampaignLaws.EveryRunCloses | packages/cli/src/campaign-api.ts:463-478 | However a run ends, also by an exception, no fixture is left set up |
| CampaignLaws.SetupIsRestored | packages/cli/src/campaign-api.ts:463-478 | A setup is followed at once, or after its own body only, by its restore, before any other event |
| CampaignLaws.RestoreHasSetup | packages/cli/src/campaign-api.ts:463-478 | A restore belongs to one setup, and each body of a job with fixtures is enclosed by its own |
| CampaignLaws.TotalRuns | packages/cli/src/campaign-api.ts:277-277 | The validation's running sum is the length of the plan |
| CampaignLaws.PlanAt | packages/cli/src/campaign-api.ts:546-550 | The mission of a job's anchor and strategy stands at its place in job, anchor, strategy order |
| CampaignLaws.MissionsAreThePlan | packages/cli/src/campaign-api.ts:546-622 | A finished campaign has exactly the plan's missions in order; one is skipped exactly when its job's discovery failed, and marked restored exactly when it ran with fixtures |
| CampaignLaws.ReportsWhatRan | packages/cli/src/campaign-api.ts:580-619 | The mission bodies that ran are exactly those reported as run or failed, each once and in order |
| CampaignLaws.StaleJobsRunNothing | packages/cli/src/campaign-api.ts:521-522 | However a run ends, also by an exception, every mission body that ran was planned, for a job whose discovery did not fail |
| CampaignReports.ExploredAfterReplay | packages/cli/src/campaign-api.ts:502-580 | With discovery no mission body runs but after a replay of its own job that ended `ok` |
| CampaignLaws.ReportsItsDiscovery | packages/cli/src/campaign-api.ts:502-622 | A finished or refused campaign reports that discovery |
| CampaignLaws.RefusedRunsNothing | packages/cli/src/campaign-api.ts:526-544 | A run refused by its preflight runs no mission; a starved host starts nothing |
| CampaignLaws.EndsExactly | packages/cli/src/campaign-api.ts:492-544 | When nothing throws, a campaign finishes if and only if the host is not starved and no preflight problem was found |
| CampaignReports.RefusedExactly | packages/cli/src/campaign-api.ts:494-544 | The host stops a run exactly when it is asked about, starved and not ignored; a finished or refused run has, or has no, problem; those of the start URLs are among them |
| CampaignReports.StartUrlsAsked | packages/cli/src/campaign-api.ts:497-497 | The start URLs are checked of exactly the jobs that have one, in plan order |
| CampaignLaws.TargetProblemRefuses | packages/cli/src/campaign-api.ts:497-499 | A problem with any start URL or session refuses the campaign whatever discovery sees later |
| CampaignReports.ProblemJobsUntouched | packages/cli/src/campaign-api.ts:497-507 | A job with such a problem is not touched: no setup, replay, restore or mission |
| CampaignLaws.BlockedIsNotReplayed | packages/cli/src/campaign-api.ts:502-507 | A job with such a problem is not replayed |
| CatalogRefs.ParentCycle | packages/cli/src/catalog-refs.ts:82-92 | Terminates, and returns true if and only if the job is reached again by one or more parent steps |
| CatalogRefs.CycleAvoids | packages/cli/src/catalog-refs.ts:87-87 | A chain that meets itself above the start never comes back to the start |
| CatalogRefs.JobRefIssues | packages/cli/src/catalog-refs.ts:95-144 | Finds exactly the problems the job has, each at its place |
| CatalogRefs.UnmeasurableExactly | packages/cli/src/catalog-refs.ts:95-135 | A metric is unmeasurable exactly at an anchor that is neither the job's start or end nor an anchor of one of its Journeys |
| CatalogRefs.MismatchExactly | packages/cli/src/catalog-refs.ts:95-135 | A target mismatches exactly when it is not in the unit its metric counts in |
| CatalogRefs.StructureExactly | packages/cli/src/catalog-refs.ts:95-144 | The other problems in terms of ids and parents, and that a gap of measure or unit is no structural one |
| CatalogRefs.SoundnessIsNoBreak | packages/cli/src/catalog-refs.ts:37-48 | A job has no structural problem if and only if its step and outcome ids are unique, its outcomes name its steps, and its parent is declared and not below it |
| CatalogRefs.AssertJobRefs | packages/cli/src/catalog-refs.ts:196-204 | An approval is refused exactly for such a job; gaps pass |
| CatalogRefs.ChainsEnd | packages/cli/src/catalog-refs.ts:82-92 | Where no declared job is its own ancestor, every parent chain ends within as many steps as there are jobs |
| CatalogRefs.ApprovableJobsFormAForest | packages/cli/src/catalog-refs.ts:136-142 | So it is when every declared job may be approved |
| CatalogFile.File.LoadPersonas | packages/cli/src/catalog.ts:331-341 | Reads the entries in file order and refuses a repeated id |
| CatalogFile.File.LoadJobs | packages/cli/src/catalog.ts:343-353 | The same of the jobs file |
| CatalogReading.PersonasExactly | packages/cli/src/catalog.ts:328-341 | A personas file is read exactly when each entry makes a persona and no two have one id, in the order of the file |
| CatalogReading.JobsExactly | packages/cli/src/catalog.ts:343-353 | The same of a jobs file |
| CatalogReading.PersonaExactly | packages/cli/src/catalog.ts:185-215 | Which entries make a persona, why the others do not, what of the entry it holds, and that it is approved exactly when its approval names the hash of its content, or the older one |
| CatalogReading.EditedIsStale | packages/cli/src/catalog.ts:138-141 | A persona approved in one version is approved in another exactly when what its hash covers is the same |
| CatalogReading.DescribedCovers | packages/cli/src/catalog.ts:217-222 | What the hash covers: the id and every field but the approval and the session settings |
| CatalogReading.ListEntryExactly | packages/cli/src/catalog.ts:167-180 | A listed entry is read exactly when it is an object with one id, under `name` or else `id`; every other field is the persona's |
| CatalogReading.MapEntryExactly | packages/cli/src/catalog.ts:182-187 | A mapped entry is an object or a storage state path, and its key is the id |
| CatalogReading.JobExactly | packages/cli/src/catalog.ts:241-283 | A job is read exactly when it has every required key, no unknown one, and each field parses; the same of its approval |
| CatalogFile.File.WritePersonaApproval | packages/cli/src/catalog.ts:444-460 | Rewrites the file with the approval on the same entry, or leaves it and says why |
| CatalogFile.File.WriteJobApproval | packages/cli/src/catalog.ts:463-472 | The same of the jobs file, re-validated before it is written |
| CatalogFile.Duplicates | packages/cli/src/catalog.ts:335-339 | The loop with a `seen` set refuses exactly when two ids are equal |
| CatalogFile.PersonaContent | packages/cli/src/catalog.ts:218-222 | The loop gathers exactly what a persona's hash covers |
| CatalogFileLaws.DescribedIgnoresApproval | packages/cli/src/catalog.ts:217-222 | What a persona's hash covers does not depend on its approval |
| CatalogFileLaws.RawPersonasApproved | packages/cli/src/catalog.ts:161-189 | In the list, wrapped and map form the written file holds the same entries, one with the approval |
| CatalogFileLaws.PersonaApprovalReloads | packages/cli/src/catalog.ts:444-460 | After write and reload that persona is approved with its hash unchanged, and every other persona and position is as it was, for every hash |
| CatalogFileLaws.RestOfPersonasFile | packages/cli/src/catalog.ts:450-458 | Every other entry of a list, wrapped list or map, every key beside a wrapped list and every position of the file is untouched |
| CatalogFileLaws.JobApprovalReloads | packages/cli/src/catalog.ts:463-472 | The same of the jobs file, listed or wrapped |
| PersonaExport.ExportPersona | packages/cli/src/catalog-bundle.ts:375-428 | The fields carried, dropped and refused, the limit of 20, and the approval |
| ExportLaws.ExportsExactly | packages/cli/src/catalog-bundle.ts:375-411 | What leaves with a persona: the texts and the first 20 fields that may travel; everything else is named as left out, or as refused for the personal data in it |
| ExportLaws.ApprovalTravels | packages/cli/src/catalog-bundle.ts:362-419 | The approval travels exactly when nothing is left out, and then as its hash, if that is a SHA-256 and its time a date-time |
| PersonaExport.ExportCarriesHashInput | packages/cli/src/catalog-bundle.ts:392-427 | From an export that may carry an approval the hashed map is rebuilt if and only if the raw entry holds no `name` and no `id` but its own |
| PersonaExport.ListedIsNamedOnce | packages/cli/src/catalog.ts:177-178 | In list form that is always so |
| PersonaExport.ListedApprovalRecomputes | packages/cli/src/catalog-bundle.ts:412-427 | A listed persona's exported approval is the hash the reader recomputes exactly when it is the persona's current hash |
| PersonaExport.CurrentApprovalRecomputes | packages/cli/src/catalog-bundle.ts:392-427 | In every form of the file: a current approval that travels is the hash the reader recomputes if and only if the raw entry holds no `name` and no `id` but its own |
| PersonaExport.NamedMapEntryFails | packages/cli/src/catalog-bundle-api.ts:121-123 | A map entry with a `name`, approved for its own hash: it is exported with that approval, and the reader's hash is another |
| StepTiming.StepTimer.AfterStep | packages/cli/src/check-execute.ts:119-124 | A completed step that was started records its last timing; any other changes nothing |
| StepTiming.StepTimer.Steps | packages/cli/src/check-execute.ts:126-126 | The timings recorded, in strict step order, none negative |
| StepTiming.Replay | packages/cli/src/check-execute.ts:104-126 | A timer driven through steps in order gives the timings of exactly the completed ones, and they do not overlap |
| StepTiming.TimingExactly | packages/cli/src/check-execute.ts:110-124 | A step's timing counts from the start of the first step and lasts as long as the step took |
| Baselines.AnchorBaseline | packages/cli/src/anchor-baselines.ts:29-49 | The baseline of a run, computed in the source's loop |
| BaselineLaws.BaselineExactly | packages/cli/src/anchor-baselines.ts:29-49 | A run has a baseline exactly when it completed with a step: its start, then the anchors whose step ran, in their order, then its end, at the first and last step |
| BaselineLaws.PointExactly | packages/cli/src/anchor-baselines.ts:38-46 | An anchor is listed exactly when its step, by id or else by number, ran; its time is the completion of that step since the first start, to the nearest millisecond |
| BaselineLaws.TotalExactly | packages/cli/src/anchor-baselines.ts:31-35 | The total is the last completion |
| Baselines.RanAnchorIsListed | packages/cli/src/anchor-baselines.ts:39-46 | Each declared anchor whose step ran is listed under its name with that step and its completion, after those declared before it |
| Baselines.RoundMonotone | packages/cli/src/anchor-baselines.ts:35-45 | Rounding keeps order |
| Baselines.TimesWithin | packages/cli/src/anchor-baselines.ts:32-48 | Every anchor time lies between 0 and the total |
| Baselines.TimesInStepOrder | packages/cli/src/anchor-baselines.ts:38-47 | When step intervals do not overlap, as in such a replay, a later step's anchor has no earlier time |
| BundleBaselines.AcceptBaseline | packages/cli/src/catalog-bundle.ts:624-650 | The acceptance of any recorded baseline, or the first reason to drop it |
| BaselineLaws.BaselineTaken | packages/cli/src/catalog-bundle.ts:612-650 | What the bundle takes: 1 to 200 steps, times up to a day to the nearest millisecond, at most 202 points, each with a proper name and a step by its id, number or name |
| BundleBaselines.BaselineTravels | packages/cli/src/catalog-bundle.ts:618-650 | With unique step ids a computed baseline is accepted, with the same steps and times, if and only if its counts, names and total are within the bundle's limits |
| BundleBaselines.DayLongRunsTravel | packages/cli/src/catalog-bundle.ts:317-318 | For a Journey of at most 200 steps and 200 anchors with proper names, if and only if it took at most a day |
| Approvals.Confirm | packages/cli/src/approval-provenance.ts:262-298 | Each channel and each refusal exactly: an approval counts as a person's if and only if every question was answered at a terminal with the id or a hash prefix |
| ApprovalLaws.DecisionExactly | packages/cli/src/approval-provenance.ts:229-298 | Each channel and each refusal exactly, in terms of the terminal, the variables set, the reason and the answers typed |
| ApprovalLaws.ConfirmedExactly | packages/cli/src/approval-provenance.ts:258-259 | An answer confirms exactly when, without the white space around it, it is the id, or at least the first 8 hexadecimal digits of the hash in any case |
| ApprovalLaws.ProvenanceExactly | packages/cli/src/approval-provenance.ts:264-296 | What is recorded: the signals of the terminal and the reason without the white space around it |
| ApprovalLaws.SignalsExactly | packages/cli/src/approval-provenance.ts:63-82 | The first twenty markers in order, then each standard stream that is no terminal; CI is seen by its seven names |
| CharacterLaws.TrimExactly | packages/cli/src/approval-provenance.ts:265-265 | Trimming removes the white space of ECMAScript at both ends and nothing else |
| Approvals.CiIsSeenAmongTwenty | packages/cli/src/approval-provenance.ts:76-82 | A CI marker is recognised exactly when it is among the first twenty markers |
| Approvals.CiPastTwentyIsMissed | packages/cli/src/approval-provenance.ts:76-82 | With twenty agent variables set, `CI` is set too and not seen |
| Approvals.ApprovalsReport | packages/cli/src/approval-provenance.ts:366-420 | The first item of each kind and id is recorded; with a required channel the violations are exactly the problems of these, none if and only if each was approved as required, and without one no violation is judged |
| ApprovalLaws.JudgedExactly | packages/cli/src/approval-provenance.ts:410-418 | Every approved persona and job and every promoted Journey of every catalog reaches the report, and nothing else |
| ApprovalLaws.JudgedInOrder | packages/cli/src/approval-provenance.ts:371-418 | Those of earlier catalogs come first |
| ApprovalLaws.ProblemsExactly | packages/cli/src/approval-provenance.ts:383-408 | Each problem of an approval exactly when it is there |
| ChangeRange.ParseChangeRange | packages/cli/src/change-context.ts:54-82 | The parser with its branches and its check of both ends |
| ChangeRangeLaws.ReadsExactly | packages/cli/src/change-context.ts:54-82 | A text is refused exactly for its shape, one revision or two around two or three dots, of 1 to 200 of git's characters, or for an end that is an option, a range or a reflog checkout; else it is read as it was printed |
| ChangeRange.ParseUndoesPrint | packages/cli/src/change-context.ts:53-82 | A printed range is read back if and only if its ends are safe, of ref characters, within the lengths, and meet the separator with no dot of their own |
| ChangeRangeLaws.ReadsBackExactly | packages/cli/src/change-context.ts:53-82 | The same in terms of the characters of both ends |
| ChangeRange.TrailingDotFails | packages/cli/src/change-context.ts:54-69 | No printed range whose first end ends with a dot is read back |
| ChangeRange.AcceptedIsSafe | packages/cli/src/change-context.ts:76-81 | Every accepted text gives two safe ends and is their printing, or one revision meaning `X..HEAD` |
| ChangeRange.OneRevision | packages/cli/src/change-context.ts:70-74 | One revision is read as itself to HEAD if and only if it is safe and at most 200 long |

## Left out

- Browsers, the network, git and forge calls, model calls, files and prompts: only the values that flow through them.
- Text is a sequence of Unicode scalar values: a string holding half of a surrogate pair is not modelled. Lengths are counted in UTF-16 code units wherever the code counts them.
- Numbers in JSON are integers, in money and time reals: no floating-point rounding but that of `Math.round`.
- JavaScript lists integer-like keys of an object first; the model keeps insertion order, which no proved property depends on. An object key `__proto__` is an ordinary key here.
- `decodeURIComponent`, `toLowerCase`, the class of Unicode letters and digits, and the patterns for personal data, printable lines, machine text and date-times are parameters of which nothing is assumed but what a lemma states.
- Warnings' and errors' wording, and the fields that only carry it, are replaced by codes.
- RedactContext: models a text. `JSON.stringify` of a structured payload is modelled for plain JSON values, without `toJSON` or `undefined`.
- MediaPackerProofs.EveryStateLists: assumes, as the approved demo records guarantee, that a video is named `demo.webm`, that ids hold no slash and that there is one demo per Journey; with a video named like a screenshot the rollback could take the screenshot out.
- MediaPackerProofs.ListedOnce: assumes too that subtitles are named `demo.vtt`; so does MediaPackerContents.EveryFileIsSourced.
- UsageLaws.SumOfRunsIsWhole: is about snapshots of a tracker's entries; records read back from older results are in `SumUsage`'s fold but not in the law.
- Budget.BlockedForever: assumes a clock that does not run back, and prices and reported costs that are not negative, which it needs: see `Budget.RefundUnblocks`.
- RedactionShort.ShortAlone: for a short secret that holds a percent sign only the one direction; its own spellings can then be text of each other.
- JsonText.VisitsAll: visits the value that was serialised; that a parse of the text gives it back is `JSON.parse`'s own promise.
- CampaignLaws.EndsExactly: the checks of start URLs and sessions and of write origins are arbitrary functions that return problems; that they never throw is assumed.
- CatalogFileLaws.PersonaApprovalReloads: assumes that the approval record the schema returns is read again with the same content hash; nothing else is assumed of the schema.
- PersonaExport.ListedApprovalRecomputes: assumes a hash that does not see the order of keys, which is what `CanonicalRoundTrip.InsertionOrderIrrelevant` proves of such a printer.
- CatalogFileLaws.JobApprovalReloads: the strict job schema reads each field on its own, the id as written and the approval by the approval schema.
- The catalog's drafts, review sheets, findings analyzers and Journey references; the persona and job texts of a bundle beyond a persona's fields; its checks and findings.
- `evidenceArtifactsReason`, manifest parsing and `revealedSecretsIn`: easy members.
- Editor saves from more than one page load: the client's counter restarts, so convergence is not claimed.
- Markdown, JUnit and SARIF output, locator health, slowness reports and outcome targets.
