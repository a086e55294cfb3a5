# Verification of the masking gateway

The gateway replaces sensitive text by placeholders `{{LABEL_suffix}}` on the way up and puts
the originals back on the way down, where the text arrives as a stream cut at arbitrary bytes.
This project models that round trip and proves what it is for: whatever goes up masked comes
down as it was, however the answer is cut and interleaved, and whatever the token store does
in between.

The modules, in the order in which they build on each other:

- `Placeholders` - placeholder syntax and hand-written forms of the fixed regular expressions;
  `Codec` - JSON string literals against section 7 of RFC 8259.
- `Restore` - the three restore passes; `Degraded`, `Repairs` - what they find in and make of
  placeholders that a model has spoilt; `Channel`, `EscapedCuts` - hold-back of half placeholders on
  one text channel; `Utf8Stream` - the UTF-8 carry buffer and the frame splitter of `push`.
- `Masking` - the stages of `mask` (any producer of ascending disjoint spans is a rule) with the
  forward-only placeholder cursor; `Hiding` - what masking takes out of a text; `RoundTrip` - masking
  and restoring undo each other.
- `Tree`, `TreeBody` - JSON trees with key names; `TreeMasked` - what is left in a masked tree; `DupKeys` - the flat duplicate-key scan.
- `Store`, `Pruning`, `Sessions`, `StoreRuns` - the two-way tables as values, their invariants and
  every run of operations on them; `Lookups` - exactly when there is an answer; `SessionStores` - the `SessionStore` object, each method of it
  one step of that state machine.
- `Sse`, `SseStream` - several channels in one stream of events with flush frames; `Slots`,
  `SlotEvents`, `SlotLaws` - where each protocol family keeps its texts, and the lens laws;
  `Members` - that they are listed completely; `Endings` - which channels an event ends; `SlotTrees` -
  what the pass over a whole event does to them.
- `Blobs`, `BlobValues`, `BlobLimits` - externalising large encoded values; `CheckDigits`,
  `CheckStandards`, `Calendar` - the arithmetic.
- `EndToEnd`, `Delivery` - the pieces put together.

`dafny verify dfyconfig.toml` checks everything.

Where code and comments disagree the model follows the code. What came of it:

- `overlaps_any` asks whether a match lies inside a placeholder, not whether it overlaps one. A word can
  cut a placeholder if and only if it fits over the edge of one (`Masking.CutIffEdge`); words without
  braces never do (`Masking.BraceFreeNoEdge`), a closing brace with a character behind it always does
  (`Masking.BraceWordCuts`).
- A custom word is found in any letter case and restored in the configured one. Restoring gives the text
  back if and only if every match kept was spelled as its key (`RoundTrip.RestoreInvertsIff`); a word in
  any other letter case does not come back (`RoundTrip.OtherSpelling`, for instance ACME for Acme).
- `mask_body` starts the members of the root at depth 0, `restore_tree` restores them at depth 1. A body
  comes back if and only if nothing is rewritten at the deepest level that is masked
  (`TreeBody.BodyRoundTripIff`; `TreeBody.DeepestLevelIff` has the inputs).
- `read_json_string` drops the halves of surrogate pairs. The scan is right for every text whose keys
  write no such pair (`DupKeys.DetectsDecodedKeys`). With pairs, different keys are taken for the same
  (`DupKeys.DifferentPairsReported`) and a key repeated in another spelling is missed
  (`DupKeys.RepeatedPairMissed`); for each key, the scan is right beside every plain key if and only if
  the key writes no pair (`DupKeys.RightBesideAllIff`).
- A placeholder that lost its braces is held if and only if it is cut behind its underscore
  (`Channel.BareHeldIff`), and a terminal event's text is not joined to what was held: a live placeholder that
  it cuts where neither half is live is read as it stands (`Channel.TerminalNotJoined`), and so is every one cut
  inside its suffix (`Channel.SuffixCutLost`). So the cuts of `Channel.CutInvariance` let flushes fall between
  pieces only.
- A partial match takes up to 63 bytes (`Channel.PartialBound`), more than the 48 of `PARTIAL_MAX`, because
  white space may be three bytes long; such a match is let out (`Channel.LongPartialLetOut`). No cut
  placeholder is ever that long.
- `new_token` hands out a used token if and only if all of its 21 draws are taken
  (`Sessions.NewTokenTakenIff`). The tables are exact afterwards if and only if some draw was free or the
  token has the suffix of the original's own expired one (`StoreRuns.IssueExactIff`); another original loses
  its way back if and only if the token was its own (`StoreRuns.FallbackRebinds`).
- What a look-around expression finds is replaced everywhere, also inside placeholders. A text can be
  replaced in or over the edge of one if and only if it fits over some placeholder
  (`Masking.HurtsIffTouches`), which a brace-free text with a foreign character never does
  (`Masking.ForeignTouchesNone`).
- Seeding does not keep away from ambiguous suffixes. It keeps the tables sound if and only if no token it
  makes up is in the recent table (`Sessions.SeedSoundIff`), which only an ambiguous suffix allows
  (`Sessions.SeedFreeUnlessAmbiguous`); then a word's placeholder is restored to somebody else's original
  (`Sessions.SeedOverAmbiguous`).
- Removing words takes a live token out of the index if and only if one of theirs is in the recent table as
  well and its suffix is not ambiguous (`Sessions.RemovalCoversIff`); then a suffix can be restored wrongly
  (`Sessions.SharedTokenGuess`). One at a time the methods never rehydrate a custom token, so this takes a race
  or a warm-up after seeding.
- Blob tokens are told apart by their fixed width, which ends at one million. With at most that many the
  original bytes come back, with more putting them back fails and says so, always (`BlobLimits.BlobRoundTripIff`).
- The frames are those of the text if and only if no chunk ends between CR and LF
  (`Utf8Stream.CutChangesFramesIff`; `Utf8Stream.CrLfCutMatters` is a missed blank line).
- `iban_ok` stops the program at a small letter behind the first four characters (`CheckDigits.Iban`).
- The 32-bit counter of `deterministic_suffix` repeats itself once it has run out, so where the model gives
  up the source never comes back.
- `is_custom_word_orig` in `recall_token` is never reached for a custom word: an earlier branch returns.

## Model

| member | source | states |
|---|---|---|
| Placeholders.CanonicalFixed | src/mask/placeholder.rs:213-221 | an issued token is its own canonical form, so the restore side looks up exactly what was issued |
| Placeholders.BracedToken | src/mask/placeholder.rs:134-142 | the double-brace pattern finds an issued token whole, with its own label and suffix, whatever follows |
| Placeholders.LooseToken | src/mask/placeholder.rs:171-179 | the loose pattern takes an issued token whole, both closing braces included |
| Placeholders.EscapedToken | src/mask/placeholder.rs:160-168 | up to three backslashes in front of a token belong to the escaped match, which ends with the token |
| Placeholders.BodyRejectsGroup | src/mask/placeholder.rs:160-168 | after fewer opening groups than there are the escaped pattern cannot match, so the greedy choice is the only one |
| Codec.JsonStringLiteral | src/mask/tree.rs:421-452 | the literal written by the loop decodes to the string, in both modes |
| Codec.DecodeLiteral | src/mask/tree.rs:421-452 | decoding gives back every Unicode string, surrogate pairs included |
| Codec.LiteralConcat | src/mask/engine.rs:1051-1066 | escaping distributes over concatenation |
| Codec.EscapeFixesToken | src/mask/engine.rs:1051-1066 | escaping leaves a placeholder as it is |
| Codec.EscapeBraceFree | src/mask/engine.rs:1051-1066 | escaping never brings in a brace |
| Restore.RestorePass | src/mask/engine.rs:1068-1106 | the loop with its copied stretches is the left-to-right scan with leftmost matches that do not overlap |
| Restore.RestoreText | src/mask/engine.rs:956-1006 | the three passes with their early exits, in order; what each of them restores is in `Repairs` |
| Restore.RestoreRendered | src/mask/engine.rs:956-1106 | on text of canonical placeholders and brace-free characters restoring is replacing: each resolvable placeholder becomes its original and nothing else changes |
| Restore.EscapedPassIdle | src/mask/engine.rs:1108-1146 | the escaped pass changes nothing that the first pass has left |
| Restore.LoosePassIdle | src/mask/engine.rs:1148-1200 | nor does the loose pass, unless a bare form in the text is live; what it does restore is in `Repairs.LostBracesRestored` and after |
| Restore.RestorableParts | src/mask/engine.rs:956-1106 | the condition for this passes to both halves of a text cut between pieces |
| Restore.RestoredIsStill | src/stream/sse.rs:270-297 | what is restored once is restored for good: another pass over it, escaped or not, changes nothing |
| Restore.NothingLiveIdle | src/mask/engine.rs:956-1006 | a text in which no pattern finds a live placeholder anywhere is left alone by every pass |
| Degraded.EscapedOn | src/mask/placeholder.rs:160-168 | the escaped pattern takes the whole of a form of up to three openers and closers, each behind up to three backslashes, with white space inside, and nothing without a closer |
| Degraded.LooseFormOn | src/mask/placeholder.rs:171-179 | the loose pattern takes the whole of a form with one or two opening braces and up to two closing ones, and the name in it |
| Degraded.NoBracedAt | src/mask/placeholder.rs:134-142 | the double-brace pattern begins nowhere in a form that is not a double-brace one itself |
| Repairs.TolerantBraces | src/mask/engine.rs:956-1106 | double braces with white space inside and any letter case become the original, and the text around them stays |
| Repairs.EscapedForm | src/mask/engine.rs:1108-1146 | so does a form whose braces stand behind backslashes, up to three of each |
| Repairs.LostBracesRestored | src/mask/engine.rs:1148-1200 | so does an issued placeholder with one or two opening braces, up to two closing ones and white space inside, whether the second or the third pass finds it |
| Repairs.LostBracesRescued | src/mask/engine.rs:1148-1200 | if the token is unknown but one live placeholder alone has its suffix, such a form becomes what that one stands for |
| Repairs.BareForm | src/mask/engine.rs:1148-1200 | without braces it becomes the original if its token is known, and otherwise stays whatever has its suffix |
| Repairs.PlainBefore | src/mask/engine.rs:956-1200 | a text without opening braces and live bare forms may stand in front, unless its end could belong to what follows |
| Repairs.PlainText | src/mask/engine.rs:956-1200 | the conditions of these five hold for any text without underscores around the form |
| Channel.PrefixIsPartial | src/mask/placeholder.rs:192-200 | every proper prefix of a placeholder is a partial match |
| EscapedCuts.EscapedPrefixIsPartial | src/mask/placeholder.rs:192-200 | so is every proper prefix of one with escaped braces, a lone backslash included |
| EscapedCuts.EscapedPrefixHeld | src/mask/placeholder.rs:202-203 | and it is short enough to be held whole |
| Channel.PartialLawful | src/mask/placeholder.rs:192-203 | the partial pattern holds every cut placeholder, reaches over no complete one and, where it holds anything else, holds little |
| Channel.HoldAt | src/stream/sse.rs:468-489 | what is held begins between pieces, never inside one |
| Channel.OneEvent | src/stream/sse.rs:453-494 | one event lets out whole pieces restored, and what it holds is again a prefix of the rest |
| Channel.CutInvariance | src/stream/sse.rs:453-494 | however the text of a channel is cut into deltas, the outputs and the final flush are the restored whole |
| Channel.BareHeldIff | src/mask/placeholder.rs:192-200 | a placeholder without braces is held if and only if it is cut behind its underscore |
| Channel.TerminalNotJoined | src/stream/sse.rs:217-260 | the halves of a live placeholder that a terminal event cuts are restored apart; if neither is live the client reads the placeholder and not its original |
| Channel.SuffixCutLost | src/stream/sse.rs:217-260 | this befalls every live placeholder cut inside its suffix |
| Channel.PartialBound | src/mask/placeholder.rs:192-203 | no partial match takes more than 63 bytes |
| Channel.LongPartialLetOut | src/mask/placeholder.rs:202-203 | there are partial matches of 63 bytes, and the cap lets them out |
| Masking.KeepByCursor | src/mask/engine.rs:605-630 | the forward-only cursor keeps exactly the matches that an all-pairs comparison with the placeholders keeps |
| Masking.OverlapsAny | src/mask/engine.rs:1038-1049 | the binary search decides containment in some placeholder |
| Masking.CutIffEdge | src/mask/engine.rs:1038-1049 | a word can touch a placeholder without being rejected if and only if, laid over some placeholder, it fits, reaches into it and sticks out |
| Masking.NoEdgeContained | src/mask/engine.rs:1038-1049 | for every other word, containment and overlap are the same |
| Masking.BraceFreeNoEdge | src/mask/engine.rs:1038-1049 | words without braces are such words |
| Masking.BraceWordCuts | src/mask/engine.rs:834-837 | a closing brace with any character behind it is accepted over the end of every placeholder, which is none afterwards |
| Masking.SpliceSpans | src/mask/engine.rs:1018-1035 | the splice loop replaces each span and keeps what is between |
| Masking.HurtsIffTouches | src/mask/engine.rs:890-914 | replacing a text everywhere can reach into a placeholder if and only if the text fits over some placeholder |
| Masking.ForeignTouchesNone | src/mask/engine.rs:890-914 | a brace-free text with a character that placeholders do not hold fits over none |
| Masking.ReplaceTexts | src/mask/engine.rs:890-914 | the texts found by a look-around expression are replaced everywhere, each in what the ones before have left |
| Masking.MaskText | src/mask/engine.rs:515-691 | the stages one after the other, with the originals hit: rules, words, and texts replaced everywhere; what they take out is in `Hiding` |
| Hiding.KeptIff | src/mask/engine.rs:605-630 | a rule takes a match if and only if it overlaps no strict placeholder, a word if and only if it lies in none |
| Hiding.TakenIsHit | src/mask/engine.rs:632-691 | whatever is taken is hit, and the placeholder of its key stands in the text afterwards |
| Hiding.StageShowsIff | src/mask/engine.rs:605-691 | after a stage an original is still to be seen if and only if it stood somewhere that no match taken reaches into |
| Hiding.StageHides | src/mask/engine.rs:605-918 | an original that a rule, a word or a text replaced everywhere finds wherever it stands is gone |
| Hiding.MaskHides | src/mask/engine.rs:515-691 | an original that some stage finds wherever it stands in the text that stage sees, and that is no part of a placeholder, occurs nowhere in the masked text, across no seam either |
| Hiding.RuleHides | src/mask/engine.rs:605-691 | for instance one that a rule finds everywhere in a text without braces |
| RoundTrip.ClearCells | src/mask/engine.rs:601-622 | a match that touches no strict placeholder touches no issued one |
| RoundTrip.MaskCells | src/mask/engine.rs:515-691 | the loop invariant: an issued token is never cut, whatever the rules find, as long as no text replaced everywhere occurs in or over the edge of a placeholder when its turn comes |
| RoundTrip.AlwaysSoundFrom | src/mask/engine.rs:794-918 | stages whose words cannot cut, and whose texts replaced everywhere fit over no placeholder, are sound for every text |
| RoundTrip.BracedLocal | src/mask/placeholder.rs:134-142 | a double-brace match depends on the matched text only |
| RoundTrip.MaskRoundTrip | src/mask/engine.rs:515-691 | restoring what any sequence of rules and words masked gives the text back |
| RoundTrip.RestoreInvertsIff | src/mask/engine.rs:791-860 | it does if and only if every match kept at every stage was spelled as its key; otherwise the text comes back in the configured spelling |
| RoundTrip.OtherSpelling | src/mask/engine.rs:300-303 | any word written in any other letter case does not come back |
| Tree.RestoreKeepsAll | src/mask/tree.rs:284-362 | whatever the restorer answers, no entry is lost: lengths, order and distinct keys at every depth |
| Tree.MaskEntriesShape | src/mask/tree.rs:253-275 | masking key names loses no entry either, if restoring tells them apart |
| Tree.InertTree | src/mask/tree.rs:284-362 | a tree in which nothing is live is left alone |
| Tree.TreeRoundTrip | src/mask/tree.rs:177-362 | restoring a masked tree in which no number was rewritten gives the tree back with its key names in order, under any exemption tables |
| TreeMasked.NumberRoundTrip | src/mask/tree.rs:216-237 | a number comes back as a number if and only if it was exempt or nothing was found in it, and as its text otherwise |
| TreeMasked.MaskTreeDone | src/mask/tree.rs:177-277 | every string, number and key of a masked tree that no table exempts meets any standard that the text masker meets, and what is exempt is as it was |
| TreeMasked.MaskTreeOkIff | src/mask/tree.rs:177-277 | masking fails if and only if a part of the tree that is walked is too deep |
| TreeMasked.MaskBodyDone | src/mask/tree.rs:474-533 | the same for a request body |
| TreeMasked.BodySettled | src/mask/tree.rs:474-533 | so a masker that finds nothing in its own output finds nothing in a masked body that is not exempt |
| TreeMasked.BodyAsMasked | src/mask/tree.rs:474-533 | and whatever the masker, what is not exempt is what the masker makes of it |
| TreeBody.BodyRoundTrip | src/mask/tree.rs:474-530 | the same for a whole request body that leaves one level of depth free; masking it succeeds |
| TreeBody.MaskHigher | src/mask/tree.rs:177-277 | depth decides only whether masking succeeds, never what it gives |
| TreeBody.BodyRoundTripIff | src/mask/tree.rs:498-533 | a body that is no object always comes back, an object if and only if nothing is rewritten at the deepest level that masking reaches |
| TreeBody.DeepestLevelIff | src/mask/tree.rs:513-526 | for instance, of the nestings masking accepts, exactly the deepest is not restored |
| DupKeys.Detect | src/mask/tree.rs:44-109 | the index loop with its stack is the recursive scan |
| DupKeys.ReadLiteral | src/mask/tree.rs:112-158 | reading a literal stops at its closing quote and does not look past it |
| DupKeys.DetectsRepeatedKeys | src/mask/tree.rs:44-158 | for every JSON text, however spaced and escaped, the flat scan says yes if and only if some object at some depth repeats a key as the scanner reads keys |
| DupKeys.KeyIsDecodedIff | src/mask/tree.rs:112-158 | the scanner reads a key as RFC 8259 does if and only if the key writes no surrogate pair |
| DupKeys.DetectsDecodedKeys | src/mask/tree.rs:44-158 | for every JSON text whose keys write no surrogate pair the flat scan says yes if and only if some object at some depth repeats a key as RFC 8259 decodes keys |
| DupKeys.DifferentPairsReported | src/mask/tree.rs:133-140 | any two different characters written as pairs are reported as a repeated key |
| DupKeys.RepeatedPairMissed | src/mask/tree.rs:133-140 | any such character written as a pair and then as itself is a repeated key that is missed |
| DupKeys.RightBesideAllIff | src/mask/tree.rs:112-158 | for each key, the scan is right beside every key without pairs if and only if the key writes no pair |
| Store.TokenParts | src/mask/placeholder.rs:92-113 | an issued token is taken apart as it was put together |
| Store.BindKeeps | src/mask/session.rs:177-196 | rehydration keeps the tables sound, as long as a token stands for one original |
| Store.IssueKeeps | src/mask/session.rs:392-420 | issuing a fresh token over an expired binding keeps them sound, and exact ones exact |
| Store.DropAllKeeps | src/mask/session.rs:618-652 | so does removing any set of originals |
| Store.DropOneMore | src/mask/session.rs:626-634 | removing one by one and removing at once leave the same tables and index |
| Store.RescueUnambiguous | src/mask/session.rs:507-524 | a token returned by suffix is live, asked for, and the only live one with its suffix |
| Store.RescueComplete | src/mask/session.rs:507-524 | without rehydration a token is returned if and only if it is live and asked for |
| Pruning.PruneKeeps | src/mask/session.rs:618-652 | a prune keeps the invariants, the custom tables and every row it leaves |
| Pruning.PruneLimits | src/mask/session.rs:618-652 | after it at most RECENT_MAX ordinary rows remain, none expired, and the rows of custom words all do |
| Pruning.PrunesArePaidFor | src/mask/session.rs:610-615 | over any run of issues, prunes charged at PRUNE_SLACK + 1 each plus rows left are at most issues made plus rows there were |
| Pruning.PrunesFromEmpty | src/mask/session.rs:610-615 | from an empty table n issues set off at most n / (PRUNE_SLACK + 1) prunes, and the table stays below the water mark |
| Sessions.NewTokenTakenIff | src/mask/placeholder.rs:48-59 | the new token is in use if and only if every draw was |
| Sessions.SeedKeeps | src/mask/session.rs:262-335 | seeding keeps exact tables exact, and sound tables sound if none of the tokens it makes up is in the recent table, whatever is ambiguous; the recent tables are left alone |
| Sessions.SeedSoundIff | src/mask/session.rs:262-335 | it keeps sound tables sound if and only if that is so |
| Sessions.SeedFreeUnlessAmbiguous | src/mask/session.rs:284-298 | it is so whenever no suffix is ambiguous |
| Sessions.SeedOverAmbiguous | src/mask/session.rs:289-296 | a word whose suffix is ambiguous gets the live token of another original, and its placeholder is restored to that |
| Sessions.RemovalCoversIff | src/mask/session.rs:262-283 | removing words keeps every live token in the index if and only if none of theirs is in the recent table, ambiguous suffixes aside |
| Sessions.SharedTokenGuess | src/mask/session.rs:270-283 | a word that is seeded, rehydrated and then removed leaves a live token out of the index, which then guesses |
| Sessions.SeedExactlyConfigured | src/mask/session.rs:262-335 | afterwards the custom words are exactly the configured ones with tokens of their labels, and a word whose label did not change keeps its token, whatever is ambiguous |
| StoreRuns.RecallExact | src/mask/session.rs:352-421 | recalling a token keeps the bijections, branch by branch |
| StoreRuns.ReachableExact | src/mask/session.rs:262-652 | in every state reachable without storage the table pairs are inverse bijections and the index maps exactly the suffix of each live token to it |
| StoreRuns.SuffixesDistinct | src/mask/session.rs:473-504 | live tokens have distinct suffixes in such states |
| StoreRuns.SeedSafe | src/mask/session.rs:262-335 | seeding binds nothing but its new tokens, so if those belong to their words all bindings stay issued ones, whatever else is bound to them |
| StoreRuns.ReachableSafe | src/mask/session.rs:177-652 | in a history in which no token is issued for two originals, every binding in every reachable state is one that was issued, across expiry, pruning, reseeding, rehydration and exhausted draws |
| StoreRuns.SafeIffOneOwner | src/mask/session.rs:177-652 | and only then: the runs that are safe throughout are exactly those in which each step binds tokens to their owners |
| StoreRuns.ReachableRescue | src/mask/session.rs:507-524 | if custom and recent tokens also stay apart, the tables are sound in every reachable state and a token returned by suffix is the only live one with it |
| StoreRuns.LookupSafe | src/mask/session.rs:527-595 | what a lookup returns is the original the token was issued for, or what that unwraps to, and never a placeholder; when it returns anything is in `Lookups.ReachableLookupIff` |
| StoreRuns.RememberHolds | src/mask/session.rs:424-441 | remember gives the original a token that the session resolves to it |
| StoreRuns.RememberedIsFound | src/mask/session.rs:424-595 | what a session asked for at any step of a run it resolves at the end, as long as it is open, whatever happens to the store |
| Lookups.LookupIff | src/mask/session.rs:527-595 | in a safe state a lookup gives the original of a token if and only if the session holds it, or a configured word has it, or the recent table has it unexpired; otherwise it gives nothing |
| Lookups.ReachableLookupIff | src/mask/session.rs:527-595 | so it is in every reachable state, for every session at any time |
| Lookups.WordResolves | src/mask/session.rs:555-559 | the token of a configured word resolves in every session at any time, asked for or not |
| Lookups.ItselfIsNothing | src/mask/session.rs:560-594 | a token that a session has only met as a text resolves to nothing there |
| Lookups.LookupUnwraps | src/mask/session.rs:560-594 | a chain of originals that are placeholders is unwrapped five deep, and a longer one gives nothing |
| Lookups.LookupRenews | src/mask/session.rs:534-553 | a hit in the recent table renews both rows of the binding and no other |
| Lookups.RecallReusesIff | src/mask/session.rs:352-421 | without storage a recall reuses a token if and only if it is a configured word's or unexpired; otherwise nobody had the token |
| Lookups.RecallRenews | src/mask/session.rs:352-421 | reused or new, the binding is renewed both ways |
| Lookups.RecallResolves | src/mask/session.rs:352-421 | and every session that does not hold the token resolves it at once to the original; a stored token is used again |
| StoreRuns.IssueExactIff | src/mask/placeholder.rs:48-59 | issuing keeps exact tables exact if and only if some draw was free or the token has the suffix of the original's own expired one |
| StoreRuns.FallbackRebinds | src/mask/placeholder.rs:57-58 | another original loses its way back if and only if the token handed out was its own |
| StoreRuns.StepAmbiguous | src/mask/session.rs:473-504 | no operation turns an ambiguous suffix back into a guess |
| SessionStores.SessionStore.SuffixIndexAdd | src/mask/session.rs:473-490 | a second token with the suffix makes it ambiguous |
| SessionStores.SessionStore.SuffixIndexDel | src/mask/session.rs:493-504 | only the token's own entry is removed |
| SessionStores.SessionStore.TouchRecent | src/mask/session.rs:462-470 | time stamps change, bindings do not |
| SessionStores.SessionStore.Rehydrate | src/mask/session.rs:177-203 | both tables and the index take the binding |
| SessionStores.SessionStore.FreshToken | src/mask/placeholder.rs:48-59 | the first of twenty draws not taken, or the last one unchecked |
| SessionStores.SessionStore.RecallToken | src/mask/session.rs:352-421 | its four ways to a token, with the prune at the end |
| SessionStores.SessionStore.Remember | src/mask/session.rs:424-441 | one step of the state machine: the session asks for a token once |
| SessionStores.SessionStore.LookupToken | src/mask/session.rs:527-595 | returns what the lookup of the state before says, which `Lookups.LookupIff` tells exactly, and renews two time stamps |
| SessionStores.SessionStore.DeterministicSuffix | src/mask/placeholder.rs:71-89 | the first derived suffix not in use, which is then in use; none if all of them are, where the source never comes back |
| SessionStores.SessionStore.SeedCustomWords | src/mask/session.rs:262-335 | one step of the state machine, unless no suffix of a word is left |
| SessionStores.SessionStore.MaybePruneRecent | src/mask/session.rs:610-615 | prunes above the water mark only |
| SessionStores.SessionStore.PruneRecent | src/mask/session.rs:618-652 | removes all expired rows, and unexpired ones only down to RECENT_MAX, oldest first, custom words untouched |
| SessionStores.SessionStore.NewSession | src/mask/session.rs:216-218 | an empty session, replacing one of that name |
| SessionStores.SessionStore.DropSession | src/mask/session.rs:234-236 | the session and nothing else is gone |
| Sse.SlotPassReads | src/stream/sse.rs:233-260 | an event says on each listed channel what that channel alone would let out, and on others what it said |
| Sse.SlotPassHolds | src/stream/sse.rs:233-260 | and holds on each listed channel what that channel alone would hold |
| Sse.EventReady | src/stream/sse.rs:243-260 | after an event every held text is short and a template that carries its channel is stored |
| Sse.FlushFrameReads | src/stream/sse.rs:549-631 | a flush frame says what was held on its channel, restored with that channel's flag, and nothing on others |
| Sse.FlushFollows | src/stream/sse.rs:510-584 | a flush, in any order of channels, is one flush event on each matching channel |
| Sse.StepHolds | src/stream/sse.rs:176-371 | one payload leaves held on each channel what that channel's own events leave, and a state in order |
| Sse.EventReads | src/stream/sse.rs:217-301 | after the pass over the whole event a client reads on each channel what that channel let out, if restoring that once more changes nothing |
| Sse.StepFollows | src/stream/sse.rs:176-371 | one payload says on each channel what that channel's own events let out |
| Sse.RunHolds | src/stream/sse.rs:176-584 | after any run a channel holds what its own events leave, whatever the others do |
| Sse.RunFollows | src/stream/sse.rs:176-584 | and what a client reads on it is what its own events let out |
| SseStream.StreamSession.RestoreChannel | src/stream/sse.rs:453-494 | joins held and new text, holds the partial match, restores the rest |
| SseStream.StreamSession.FlushPendingMatching | src/stream/sse.rs:510-584 | every matching channel is sent once and forgotten, the others are not touched |
| SseStream.StreamSession.HandleEvent | src/stream/sse.rs:217-301 | one step of the stream: flush what the event ends, pass its slots, store templates |
| SseStream.StreamSession.Finish | src/stream/sse.rs:499-506 | everything held is sent |
| SseStream.Conservation | src/stream/sse.rs:176-631 | when nothing resolves, a client reads on every channel exactly what was said on it, flush frames included |
| SseStream.PiecesSettle | src/stream/sse.rs:453-494 | whole pieces are let out, and restoring what came of them once more changes nothing |
| SseStream.ReachableHeld | src/stream/sse.rs:176-631 | in every reachable state a held text has at most 48 bytes, depends on its own channel only, and has a template that carries the channel |
| SseStream.StreamCutInvariance | src/stream/sse.rs:176-631 | cut invariance on a real stream, whatever other channels do and with the pass over each whole event |
| Slots.DetailsSet | src/stream/slots.rs:361-375 | writing a detail rewrites its slot and no other |
| Slots.ToolsSet | src/stream/slots.rs:392-415 | writing a tool call rewrites its slot and no other, given distinct numbers |
| Slots.SetDeltaLaw | src/stream/slots.rs:334-428 | writing any listed field of a chat delta does |
| SlotEvents.SetObjectLaw | src/stream/slots.rs:432-464 | so does writing one of a block delta or of a local message |
| SlotEvents.SetSlotLaw | src/stream/slots.rs:313-465 | writing a listed channel makes the listing the same with only that text replaced, in every family and for generic fields; that nothing is missing from the listing is `Members.ListedIff` |
| SlotLaws.DistinctSlots | src/stream/slots.rs:80-252 | no channel is listed twice |
| Members.ListedIff | src/stream/slots.rs:80-252 | the listing is exactly the strings at the places of streamed text, said of the JSON itself - chat deltas with reasoning details, tool calls and function call, choice texts, block deltas, deltas of the Responses API, messages of a local model - each with the channel and flag of its place |
| Members.SpokenIs | src/stream/slots.rs:80-252 | so what an event says on a channel is the string at the one place that has the channel |
| Members.NumberIs | src/stream/slots.rs:80-252 | a channel has the number under its key if that is a whole one, and the default otherwise |
| Endings.ClosesIff | src/stream/slots.rs:254-310 | an event ends exactly the channels that its type, its done flag or a finish reason that is not blank says |
| Endings.BlankEndsNothing | src/stream/slots.rs:283-308 | finish reasons that are missing, null or blank end nothing |
| SlotLaws.SlotFlags | src/stream/slots.rs:80-252 | the escape flag is a function of the channel: tool-call arguments of every family |
| SlotLaws.CalmKeeps | src/stream/sse.rs:606-618 | removing the ending signals from a flush frame leaves every text where it is |
| Endings.CalmEndsNothing | src/stream/sse.rs:606-618 | and with them removed the frame ends nothing |
| Endings.EndedLeaves | src/stream/sse.rs:217-260 | what was held on a channel that an event ends is read, restored, ahead of the event, and nothing is held on it afterwards |
| Endings.LastLeaves | src/stream/sse.rs:499-506 | nor does the end of the stream leave anything held |
| SlotLaws.ProxiedLawful | src/stream/slots.rs:80-465 | the real protocols obey all laws the stream theorems ask for |
| SlotTrees.SetSlotSteady | src/stream/slots.rs:313-465 | writing a listed channel puts no new key into the event and leaves its type alone |
| SlotTrees.RestoredSlots | src/mask/tree.rs:284-362 | restoring an event whose keys and type are inert lists the same channels, each text as it was or restored, in every family |
| SlotTrees.ProxiedRetells | src/stream/sse.rs:270-297 | so the real pass over the whole event, by any restorer, satisfies what the stream theorems ask of it |
| Utf8Stream.StreamState.DecodeChunk | src/stream/sse.rs:60-87 | decodes up to the last complete character and carries the rest |
| Utf8Stream.StreamState.Push | src/stream/sse.rs:92-144 | frames taken out, the forced cut, the end of the stream; never more than three bytes carried |
| Utf8Stream.CutAtCharacter | src/stream/sse.rs:64-83 | looking back at most three bytes finds exactly the last unfinished character |
| Utf8Stream.ChunkDecodes | src/stream/sse.rs:60-87 | a chunk decodes to the characters it completes, and a proper prefix of one character is carried |
| Utf8Stream.FramesStream | src/stream/sse.rs:114-120 | complete frames may be taken out before the rest arrives |
| Utf8Stream.ByteCutInvariance | src/stream/sse.rs:60-144 | however UTF-8 text is cut into chunks, the frames are those of the text |
| Utf8Stream.CarriedIsProper | src/stream/sse.rs:60-87 | what is carried is always a proper prefix of one character |
| Utf8Stream.StreamCrs | src/stream/sse.rs:92-144 | each pair of CR and LF that a chunk ends between leaves one CR more in the frames than the text has, however long they are |
| Utf8Stream.CutChangesFramesIff | src/stream/sse.rs:92-144 | the frames are those of the text if and only if no chunk ends between CR and LF |
| Utf8Stream.CrLfCutMatters | src/stream/sse.rs:106 | for instance, a blank line cut between its last CR and LF is missed |
| Blobs.ScanStringEnd | src/mask/blob.rs:334-350 | the closing quote, escapes skipped |
| Blobs.LooksLikeLargeBase64 | src/mask/blob.rs:149-205 | the one-pass flags decide: long, base64 characters, padding at the end, a symbol, three kinds, no hex string |
| Blobs.ClassifyBytes | src/mask/blob.rs:91-108 | which contents may be taken out |
| Blobs.Extract | src/mask/blob.rs:232-293 | the byte loop gives the woven body with numbered tokens and the contents in order |
| Blobs.PartsAre | src/mask/blob.rs:243-283 | the parts taken and left are the body, values between quotes, the nonce nowhere |
| Blobs.PartsSkippable | src/mask/blob.rs:262-279 | only classified contents are taken |
| BlobValues.StringEndIff | src/mask/blob.rs:334-350 | the end of a string is the first quote behind an even number of backslashes |
| BlobValues.IsKeyIff | src/mask/blob.rs:252-262 | a string is a key if and only if white space and a colon follow |
| BlobValues.ValuesTaken | src/mask/blob.rs:243-283 | the values taken out are all the string literals of the body that are no keys and classified, in order |
| BlobValues.LiteralsIff | src/mask/blob.rs:243-283 | and extraction gives up if and only if the body has a string without an end |
| Blobs.ReinjectChecked | src/mask/blob.rs:300-313 | one replacement after the other, none if a token is missing |
| Blobs.TokensDiffer | src/mask/blob.rs:270 | below a million tokens have one width and are all different |
| Blobs.WovenReinject | src/mask/blob.rs:300-313 | whatever became of the text around the tokens, each content goes to its own place |
| Blobs.BlobRoundTrip | src/mask/blob.rs:232-364 | extracting and putting back gives exactly the original bytes |
| BlobLimits.WideTokenPrefix | src/mask/blob.rs:267-270 | the first seven-digit token begins with a six-digit one |
| BlobLimits.WovenStep | src/mask/blob.rs:308-312 | replacing one token everywhere, in the wider tokens that begin with it, too |
| BlobLimits.BlobRoundTripIff | src/mask/blob.rs:232-364 | the original bytes come back if and only if there are at most a million values; with more the reinjection reports failure |
| CheckDigits.Luhn | src/mask/validators.rs:15-36 | the loop from the right is the weighted sum |
| CheckDigits.LuhnSubstitution | src/mask/validators.rs:15-36 | every replaced digit is detected |
| CheckDigits.LuhnTransposition | src/mask/validators.rs:15-36 | exchanged neighbours are detected if and only if they are not 0 and 9 |
| CheckStandards.LuhnIsStandard | src/mask/validators.rs:15-36 | a number passes if and only if it is long enough and the sum of ISO/IEC 7812-1, annex B, taken from the right, is a multiple of ten |
| CheckDigits.IdSubstitution | src/mask/validators.rs:153-176 | MOD 11-2 detects every replaced character, the case of X aside |
| CheckDigits.IdTransposition | src/mask/validators.rs:153-176 | and every exchange of unequal neighbours |
| CheckStandards.IdOkIff | src/mask/validators.rs:153-176 | a number passes if and only if province and date of birth are real and the recursion of MOD 11-2 in ISO/IEC 7064, which has no table of weights, ends in 1 |
| CheckDigits.Uscc | src/mask/validators.rs:432-447 | the loop is the weighted sum and its check character |
| CheckDigits.UsccIsCongruence | src/mask/validators.rs:432-447 | the check character is right if and only if the sum over all 18 is 0 modulo 31 |
| CheckDigits.UsccSubstitution | src/mask/validators.rs:432-447 | MOD 31 detects every replaced character |
| CheckDigits.UsccTransposition | src/mask/validators.rs:432-447 | and every exchange of unequal neighbours |
| CheckStandards.UsccWeightIs | src/mask/validators.rs:432-447 | the weights are the powers of three modulo 31 |
| CheckDigits.Iban | src/mask/validators.rs:355-392 | the running remainder decides whether the expanded big number is 1 modulo 97; a small letter stops the program |
| CheckDigits.IbanSubstitution | src/mask/validators.rs:355-392 | every letter replaced by a letter and digit by a digit is detected |
| Calendar.DayZero | src/store/db.rs:828-839 | day 0 is the first of January 1970 |
| Calendar.CivilSuccessor | src/store/db.rs:828-839 | every day has a real date and the next day has the next Gregorian date, for negative days, too |
| Calendar.CivilIsNth | src/store/db.rs:828-839 | day n is the n-th day after day 0 counted one by one |
| Calendar.CurrentYearIs | src/mask/validators.rs:125-140 | the inlined arithmetic gives the year of that date |
| EndToEnd.StoredRoundTrip | src/mask/engine.rs:515-1106 | text whose originals the session asked for in a run from the empty store is restored at its end, whatever the store did before and in between |
| EndToEnd.NothingLiveInert | src/mask/engine.rs:956-1006 | a text without a live placeholder shape is one that masking can start from |
| EndToEnd.EchoRoundTrip | src/stream/sse.rs:453-494 | masked text echoed on one channel and cut anywhere comes out as the original |
| EndToEnd.EchoThroughProxy | src/stream/sse.rs:176-631 | the same through events of every known protocol, interleaved with anything, with nothing live in keys and types |
| EndToEnd.EchoFromBytes | src/stream/sse.rs:60-144 | the same from the bytes of the stream, cut into chunks anywhere but between CR and LF |
| EndToEnd.ConservationThroughProxy | src/stream/sse.rs:176-631 | when nothing resolves, every listed text of every event of every protocol arrives in order |
| Delivery.MembersDelivered | src/stream/slots.rs:80-252 | and so does the string at every place of streamed text of every event, whole, between what was said on its channel before and after |
| EndToEnd.EscapedRestoreDecodes | src/mask/engine.rs:1202-1208 | a placeholder inside a JSON string is restored so that decoding gives the plain restoration |
| EndToEnd.StoredTreeRoundTrip | src/mask/tree.rs:177-362 | the tree round trip with the real masker and the real restore passes |
| Delivery.BodyHides | src/mask/tree.rs:474-533 | no original that the stages find is left in a string, number or key of a masked body that no table exempts |

## Left out

- The detection rules of `src/mask/rules.rs`, their boundary and semantic checks, the prefix rules and the word matcher: a rule is any function to ascending disjoint spans.
- The regular-expression library: the fixed patterns are hand-written matchers, leftmost and greedy, with the two extra letters that Unicode case folding adds; case mapping of labels and suffixes covers the letters they can hold.
- JSON parsing and printing: a body, an event and a template are trees with key order preserved; which object the data line of a frame holds is an arbitrary function; how a number reads as an index is an arbitrary function.
- The three ways `mask_body` writes a body back, `splice_mask` among them: the model masks the parsed value.
- Storage, the writer thread and both lookup hooks: rehydration is an operation that may happen at any time, and a lookup by original may answer anything consistent.
- `warmup_from_events`, `drain_pending_persist`, `sweep` and `touch`: a warm-up is rehydrations and a prune, a sweep closes sessions, both of which the runs allow.
- Statistics, previews, samples, labels of a session, dialog extraction, command blocking (`cmd_blocked` is false), the `kept` text, HTTP.
- Frames that are no JSON objects, several lines in one frame, `[DONE]` other than as the end of the stream, and NDJSON, whose flush precedes its own line.
- Blob skipping inside restore: it is off.
- Bytes that are not UTF-8: `from_utf8_lossy` is any function that decodes valid text.
- Clocks, random numbers and hashes are inputs; time stamps are whole numbers.
- Concurrency between requests: every operation of the store is one step.
- CutInvariance: originals contain no brace, no bare form of a live token occurs in the text, and flushes fall between pieces; outside of this the code does something else, as BareHeldIff and SuffixCutLost show.
- MaskRoundTrip: asks that nothing in the original text is itself live, which is what the restore passes would replace; that words cannot cut placeholders (`Masking.EdgeWord`); and that no text replaced everywhere touches one when its turn comes (`Masking.Hurts`).
- TreeRoundTrip: asks that no number is rewritten, since a rewritten number comes back as a string, as NumberRoundTrip says.
- LostBracesRestored: asks for the label and suffix as issued, since the third pass looks up what it reads; another spelling is not found.
- EchoThroughProxy: asks that no key and no type of an event holds a live placeholder, since the pass over the whole event would rename the field.
- ReachableSafe: that no token is issued for two originals is asked of the history, as random draws and storage cannot promise it; it asks for nothing else, and SafeIffOneOwner shows that it needs it.
- ReachableRescue: asks besides that no draw is used unchecked and that custom and recent tokens stay apart, without which a suffix may be a guess.
- SeedKeeps: asks that no new token is in the recent table; it is false otherwise, as SeedSoundIff and SeedOverAmbiguous show.
- SeedCustomWords: stops when no suffix of a word is left, where the source loops for ever.
- ByteCutInvariance: no unfinished frame exceeds the buffer limit; the forced cut beyond it is in `Push` but not in the theorem.
- Iban: strings are trimmed before.
- IdSubstitution: strings are ASCII, since the source slices bytes.
- SetSlotLaw: channel numbers that do not fit a machine word are not distinguished from others.
