# Crowdfunding dApp client: a verified model of its decision logic

The browser client of the crowdfunding dApp (`frontend/app.js`) keeps a cache
of the campaigns read from the crowdfunding contract. It draws one card per
campaign, with a state badge, a status line and the action buttons the
logged-in role may use. A one-second ticker rewrites the countdowns and forces
a refresh when a campaign's time runs out. The client also resolves NFT badge
pictures and checks the forms before it sends a transaction.

This project models that logic in Dafny and proves what it promises:

- `Text`: the JavaScript string built-ins the client relies on:
  - `trim` and the `\s` class;
  - ASCII `toLowerCase`;
  - `replace(/\s+/g, "-")`;
  - the decimal text of a number and `parseInt` of it;
  - `indexOf(...) !== -1`.
- `Campaigns`: a cached campaign, the state names (`STATES[i] || "Unknown"`),
  the badge class, and `Math.max(deadline - now, 0)`.
- `CardPlan`: `renderCampaigns` as a pure function from the cache, the role,
  the connected address and the clock to a list of card descriptors.
- `CampaignCache`: `loadCampaigns`.
  - As a step function `LoadStep` on the module state (the loading flag, the
    cache, a render counter, the last view).
  - As the imperative method `CampaignClient.LoadCampaigns`, whose loop is
    proved to perform exactly that step.
- `Countdown`: `updateCountdowns` as an in-place rewrite of an array of
  countdown nodes, and `startCountdownTicker` as a class holding the
  schedule handle.
- `Html`: `escapeHtml`, with a reference decoder that proves it loses nothing.
- `Badges`: `resolveNFTImageUrl`, the `ipfs://` gateway rewrite and the
  three-step picture fallback.
- `Network`: the chain allow-list and the first two exits of `login`.
- `Validation`: the checks in `submitCampaign`, `contributeFromUI`,
  `contribute` and `refund`.

The contract calls are inputs:
- `ChainReads` gives the count read and each record read, any of which can fail;
- `MetadataResponse` gives what the metadata fetch returned;
- `now` gives the clock;
- the number fields are already parsed (`None` for NaN).

## Model

| member | source | states |
|---|---|---|
| Text.Trim | frontend/app.js:244-245 | `trim()` never lengthens a text, and a non-empty result neither starts nor ends with white space |
| Text.IsSpace | frontend/app.js:228 | a character `trim()` and `\s` treat as white space is never a visible ASCII character |
| Text.TrimEmptyIffBlank | frontend/app.js:480 | `s.trim()` is empty exactly when every character of `s` is JavaScript white space |
| Text.TrimShape | frontend/app.js:228 | the trimmed text is the input with a blank prefix and a blank suffix cut off, and nothing else |
| Text.TrimIdempotent | frontend/app.js:244-245 | trimming an already trimmed text changes nothing |
| Text.Lower | frontend/app.js:560 | `toLowerCase` keeps the length and maps each character by itself: `A`-`Z` to `a`-`z`, every other character unchanged |
| Text.LowerIdempotent | frontend/app.js:470 | lower-casing twice is lower-casing once; the result has no upper-case ASCII letter |
| Text.DashSpaces | frontend/app.js:470 | the result of replacing white-space runs by `-` holds no white space, is no longer than the input, and is empty only for empty input |
| Text.DashSpacesIdentity | frontend/app.js:470 | a text without white space passes the replacement unchanged |
| Text.DashSpacesNoUpper | frontend/app.js:470 | the replacement introduces no upper-case letter |
| Text.DashSpacesJoin | frontend/app.js:470 | a whole run of white space (one character or more) after a space-free word becomes exactly one dash, as `/\s+/g` replaces maximal runs ("a  b" → "a-b") |
| Text.NatToString | frontend/app.js:512-513 | `String(n)` is a non-empty digit string with no leading zero |
| Text.ParseNatToString | frontend/app.js:737 | `parseInt` of the `data-deadline` text written by `String(deadline)` gives the deadline back |
| Text.ParseDigits | frontend/app.js:737 | `parseInt` of a digit string is zero exactly when every digit is `0` |
| Text.NatToStringInjective | frontend/app.js:142-143 | two numbers have the same decimal text exactly when they are equal |
| Text.Contains | frontend/app.js:739 | a pattern found by `indexOf` is no longer than the text, and the empty pattern is always found |
| Text.ContainsAt | frontend/app.js:739 | `indexOf(pat) !== -1` holds exactly when `pat` occurs at some position |
| Text.MissingFirstCharNotContained | frontend/app.js:739 | a pattern whose first character is absent from the text does not occur in it |
| Campaigns.FromRecord | frontend/app.js:413-424 | the cache entry built for index `i` has id `i` and the record's state and deadline |
| Campaigns.StateLabel | frontend/app.js:469 | tags 0..6 get their `STATES` name, any other tag "Unknown" |
| Campaigns.ClosedStateLabels | frontend/app.js:466-469 | the label is "Withdrawn" exactly for tag 5 and "Rejected" exactly for tag 6 |
| Campaigns.StateClass | frontend/app.js:470 | a badge class is non-empty and holds neither white space nor upper-case letters |
| Campaigns.SecondsLeft | frontend/app.js:738 | `Math.max(deadline - now, 0)` is positive exactly when `now < deadline`, and then reaches the deadline from `now` |
| CardPlan.Visible | frontend/app.js:465-466 | a moderator sees every campaign; a campaign hidden from another role is labelled "Withdrawn" or "Rejected" |
| CardPlan.StatusFor | frontend/app.js:504-515 | "Pending approval" exactly for state 0; a countdown exactly for state 2 with a deadline, carrying that deadline and the seconds left; nothing otherwise |
| CardPlan.StatusText | frontend/app.js:504-515 | a card has an empty status line exactly when its campaign is neither pending approval nor counting down |
| CardPlan.SameAddress | frontend/app.js:560 | two addresses match exactly when they have the same length and agree character by character after lower-casing |
| CardPlan.Actions | frontend/app.js:517-585 | the button row always ends with View Contributors and never holds both Contribute and Finalize |
| CardPlan.ActionsGating | frontend/app.js:517-585 | Approve and Reject iff moderator and state 0; Contribute iff contributor, state 2, a deadline and time left; Withdraw iff creator, state 3 and the same address after lower-casing; Finalize iff state 2 and the deadline passed. The last button is View Contributors, Contribute and Finalize never share a card, and no button appears twice |
| CardPlan.CardFor | frontend/app.js:476-481 | a card carries its campaign's id and title, and a description paragraph exactly when the description is not all white space |
| CardPlan.CardForShape | frontend/app.js:476-515 | a card shows its campaign's id, title, state label and class, status line and buttons; the description paragraph appears, unchanged, exactly when the description is not all white space |
| CardPlan.Shown | frontend/app.js:457-467 | the campaigns drawn are no more than the cache holds, and each may be seen by the role |
| CardPlan.ShownSound | frontend/app.js:466-467 | only campaigns of the cache that the role may see are drawn |
| CardPlan.ShownComplete | frontend/app.js:466-467 | every campaign of the cache that the role may see is drawn |
| CardPlan.ShownEverything | frontend/app.js:457-467 | a role that may see every campaign is shown the whole cache, in order |
| CardPlan.ShownAppend | frontend/app.js:457-467 | filtering a cache made of two parts draws the first part's visible campaigns, then the second part's, in order and with their multiplicity |
| CardPlan.ShownSingle | frontend/app.js:466-467 | a one-campaign cache draws that campaign exactly when the role may see it, and nothing otherwise |
| CardPlan.Cards | frontend/app.js:457-589 | one card per drawn campaign, in cache order, each the card of that campaign |
| CardPlan.Render | frontend/app.js:442-589 | the "No campaigns found." message appears exactly when the cache is empty, and otherwise the view is the card list `Cards` of the cache |
| CardPlan.CardsSound | frontend/app.js:457-467 | every card is the card of a cached campaign the role may see |
| CardPlan.CardsComplete | frontend/app.js:457-467 | every cached campaign the role may see gets its card |
| CardPlan.ModeratorSeesEveryCampaign | frontend/app.js:467 | a moderator gets exactly one card per cached campaign, in cache order |
| CardPlan.NonModeratorNeverSeesClosed | frontend/app.js:466-467 | for any other role no card is labelled Withdrawn or Rejected, and with unique ids no card carries the id of a hidden campaign |
| CardPlan.ViewControlsExclusive | frontend/app.js:517-585 | across a rendered view no card offers both Contribute and Finalize, every card offers View Contributors, and only a moderator's cards offer Approve or Reject |
| CampaignCache.FetchPrefix | frontend/app.js:412-425 | a list built by the read loop up to `n` has `n` entries, entry `i` with id `i` |
| CampaignCache.FetchAll | frontend/app.js:405-425 | a fetched list exists only with a count read, has one entry per counted index, entry `i` with id `i` |
| CampaignCache.FetchPrefixContents | frontend/app.js:412-425 | the read loop fails exactly when some read below `n` fails; otherwise entry `i` is the record read at index `i`, with id `i` |
| CampaignCache.FetchAllContents | frontend/app.js:405-425 | the fetch succeeds exactly when the count and every index below it read; the list then has `count` entries with ids `0..count-1` in order, all distinct |
| CampaignCache.FailedPrefixStaysFailed | frontend/app.js:426-430 | once one read fails, the whole fetch fails |
| CampaignCache.ShouldRender | frontend/app.js:431-435 | a load redraws exactly when forced or when the fetched list differs from the cache; the length test is subsumed by the comparison |
| CampaignCache.LoadStep | frontend/app.js:400-440 | a call that starts ends with the flag cleared; it renders at most once; the cache and view change only with a render, and a render draws the new cache |
| CampaignCache.LoadGuarded | frontend/app.js:400-401 | a call while a load is in flight or without a contract changes nothing |
| CampaignCache.LoadFailureKeepsCache | frontend/app.js:405-430 | a failed count or record read keeps the cache and the render count, and the loading flag ends false |
| CampaignCache.LoadSuccess | frontend/app.js:431-439 | on success the cache holds the fetched list; exactly one render happens iff forced or the list differs from the old cache, none otherwise; the view shows the new cache; the flag ends false |
| CampaignCache.SecondUnforcedLoadIsQuiet | frontend/app.js:431-436 | an unforced refresh over unchanged contract data draws nothing and changes nothing |
| CampaignCache.ChangedDataRendersOnce | frontend/app.js:431-438 | an unforced refresh that reads changed data renders exactly once |
| CampaignCache.CampaignClient.constructor | frontend/app.js:7 | a session starts with nothing loading, an empty cache and nothing drawn |
| CampaignCache.CampaignClient.RenderCampaigns | frontend/app.js:442-590 | a render draws the current cache and counts one render, leaving the cache and flag alone |
| CampaignCache.CampaignClient.LoadCampaigns | frontend/app.js:400-440 | the method's effect on the module state is exactly `LoadStep`, whose properties are the lemmas above |
| Countdown.Tick | frontend/app.js:736-742 | every node keeps its deadline and gets the text for its seconds left |
| Countdown.CountdownNodes | frontend/app.js:734 | the "No campaigns found." view holds no countdown node, and no node selected from a fresh render reads "Ended" (which nodes a card list gives is fixed by `NodesOfSingle` and `NodesOfAppend`) |
| Countdown.NodesOf | frontend/app.js:734 | a list of cards gives no more countdown nodes than it has cards, and none of them reads "Ended" |
| Countdown.NodesOfSingle | frontend/app.js:504-514 | one card gives its countdown node exactly when it shows a countdown (active with a deadline), and a "Pending approval" line, which has no `data-deadline`, gives none |
| Countdown.NodesOfAppend | frontend/app.js:734 | selection distributes over concatenation, so the nodes are one per countdown card, in card order |
| Countdown.NodesOfSound | frontend/app.js:734 | every selected node is the node of some countdown card of the list |
| Countdown.CountdownTextNeverEnded | frontend/app.js:741 | a "Time left: N sec" text never contains "Ended" |
| Countdown.TickText | frontend/app.js:741 | the rewritten text contains "Ended" exactly when no time is left |
| Countdown.JustEnded | frontend/app.js:739-740 | a node that just ended has its deadline passed and a text other than "Ended" |
| Countdown.NeedsRefresh | frontend/app.js:736-743 | a refresh is asked for only when some node's deadline has passed; an empty page never asks |
| Countdown.TickEdgeTriggered | frontend/app.js:736-743 | after a tick, a later tick asks for a refresh exactly when some node had time left at the first tick and none at the second |
| Countdown.TickSettles | frontend/app.js:739-740 | a second tick at the same instant, or after every node has ended, asks for no refresh |
| Countdown.RefreshOnMember | frontend/app.js:739-740 | one just-ended node is enough to ask for a refresh |
| Countdown.NodesOfMember | frontend/app.js:509-514 | every drawn countdown card contributes its node |
| Countdown.ExpiredCardJustEnded | frontend/app.js:509-513 | the countdown drawn for an active campaign past its deadline reads "Time left: 0 sec", which a tick treats as just ended |
| Countdown.RenderedExpiredCountdownRefreshes | frontend/app.js:509-513 | after any render, a visible active campaign past its deadline makes the next tick ask for a refresh again |
| Countdown.RewriteCountdowns | frontend/app.js:733-742 | the loop leaves the nodes equal to `Tick` of the old nodes and reports whether some node just ended |
| Countdown.UpdateCountdowns | frontend/app.js:732-744 | the tick, then a forced `loadCampaigns` exactly when some node just ended |
| Countdown.CountdownTicker.constructor | frontend/app.js:746 | no schedule exists at first |
| Countdown.CountdownTicker.Start | frontend/app.js:748-752 | a no-op once a schedule exists; otherwise one tick now and the schedule recorded |
| Html.EscapeChar | frontend/app.js:91-97 | each of `&<>"'` becomes a reference of at least four characters from `&` to `;`; any other character stays as it is; no `<`, `>`, `"` or `'` is left |
| Html.EscapeHtml | frontend/app.js:89-101 | the output holds no `<`, `>`, `"` or `'`, is at least as long as the input, and equals the input when nothing needs escaping |
| Html.UnescapeHead | frontend/app.js:90-100 | decoding the escape of one character yields that character |
| Html.EscapeRoundTrip | frontend/app.js:89-101 | decoding the escaped text gives back the input, so escaping loses nothing |
| Html.EscapeConcat | frontend/app.js:98-100 | escaping works character by character: it distributes over concatenation |
| Badges.RewriteIpfs | frontend/app.js:678-681 | the gateway rewrite never yields an `ipfs://` address and leaves every other address untouched |
| Badges.RewriteIpfsProperties | frontend/app.js:678-681 | `ipfs://` + path becomes the gateway + the same path, and a second rewrite changes nothing |
| Badges.ChoiceUrisDistinct | frontend/app.js:55-71 | no two entries of the badge table share a URI |
| Badges.ChoiceImagesAreHttp | frontend/app.js:55-74 | every picture of the badge table, and the default picture, starts with `https://` |
| Badges.LookupImage | frontend/app.js:670-675 | a picture found is the picture of a table entry with the URI |
| Badges.LookupImageFirstMatch | frontend/app.js:670-675 | the lookup finds nothing exactly when no entry has the URI, and otherwise returns the picture of the first matching entry |
| Badges.ResolveNFTImageUrl | frontend/app.js:670-675 | the scan returns the lookup's result: null exactly when no entry has the URI |
| Badges.MetadataImage | frontend/app.js:682-691 | a picture exactly when the response is OK JSON with an `image` or `image_url`; `image` wins, else `image_url`, each after the gateway rewrite; the picture is non-empty and not an `ipfs://` address; a picked field that is not a string gives no picture, as `replace` throws and the catch returns null |
| Badges.BadgeImageFallback | frontend/app.js:705-707 | a known URI shows its table picture whatever the fetch returns; otherwise the metadata picture; otherwise the default |
| Badges.BadgeImage | frontend/app.js:703-707 | the picture shown is a table picture, the metadata picture or the default; it is never empty and never an `ipfs://` address |
| Network.IsSupportedChain | frontend/app.js:142-143 | the allow-list test on the decimal text admits exactly the chains 31337, 11155111 and 17000 |
| Network.CheckLogin | frontend/app.js:133-148 | login stops without a wallet, then on a chain off the list, and proceeds exactly on a listed chain |
| Validation.ValidateSubmission | frontend/app.js:223-241 | a submission passes iff the title is not all white space, the goal is above zero and the duration is above zero; otherwise the first failing check, in that order, is reported |
| Validation.SubmissionTrimmed | frontend/app.js:242-247 | the title and description sent are the typed ones with a blank prefix and suffix cut and no white space left at either end; the title is non-empty, and the description is empty exactly when only white space was typed |
| Validation.ValidateContributeForm | frontend/app.js:283-296 | missing fields iff the id is all white space or the amount is empty; then an invalid amount iff it is not a number above zero; otherwise the typed id and amount are passed on |
| Validation.ValidateCardAmount | frontend/app.js:261-266 | the card's button accepts exactly a parsed amount above zero |
| Validation.FormStricterThanCard | frontend/app.js:261-296 | an amount the form accepts is accepted by the card button, and an amount the button refuses is refused by the form |
| Validation.ValidateRefund | frontend/app.js:312-318 | a refund goes ahead exactly when the id is not all white space |

## Left out

- Wallet and provider setup, signer and address reads, the moderator lookup, `provider.on("block")` and `updateBalance`: these are calls into MetaMask and ethers. Only the wallet check and the allow-list test of `login` are modelled (`Network.CheckLogin`).
- Contract transactions and `tx.wait()` in every action handler and in the NFT trade. Their outcome is decided by contract code that is not part of this model. The validation functions model what happens before the call.
- DOM construction, `alert`, blockies avatars, event binding and `setInterval` itself. A card is a value (`CardPlan.Card`), and the schedule handle is a number passed in as `timer`.
- `fetch` and JSON parsing in `fetchMetadataImage`. The response is an input (`Badges.MetadataResponse`); a missing or falsy `image` field is the empty string.
- Badges.MetadataImage: a truthy `image` or `image_url` that is not a string (a number, an object) is not carried as a JSON value; the response is the single case `NonStringPicture`, standing for the `TypeError` that `replace` throws and the catch turns into null, so the default picture shows.
- Floating point: the wei-to-ETH `Number` conversion, the "raised / goal ETH" line and the progress percentage are not modelled. Goal, deadline and raised are kept as exact naturals, not as the decimal strings the cache stores.
- `parseFloat` and `parseInt` are abstracted to already-parsed optional values: `Option<real>` and `Option<int>`, with `None` for NaN.
- CampaignCache.SecondUnforcedLoadIsQuiet and CampaignCache.ChangedDataRendersOnce: every call of `loadCampaigns` in `frontend/app.js` passes `true` (lines 195, 254, 274, 303, 322, 333, 346, 357, 370 and 743), so the client never takes the unforced branch; these two lemmas are facts about `LoadStep`, not behaviour the client shows.
- Overlapping `loadCampaigns` calls: one call is atomic; only the loading flag that guards re-entry is modelled.
- CampaignCache.LoadStep: `JSON.stringify` inequality of the two lists is modelled as structural inequality of the campaign values.
- `toLowerCase` is modelled on ASCII letters only; addresses and state names are ASCII.
- `Number(...)` conversions of contract values are taken as exact; values beyond 2^53 and exponent notation in `String(n)` are not modelled.
- `CHAIN_NAMES` is never read by the client and is not modelled.
- Countdown.RewriteCountdowns: the node array holds the nodes selected at one tick. A re-render replaces the nodes, and `Countdown.CountdownNodes` gives the new ones. Re-rendering an expired countdown draws "Time left: 0 sec", so `Countdown.RenderedExpiredCountdownRefreshes` shows the refresh is asked for again after every render: the refresh is edge-triggered per set of nodes, not once per campaign.
- Countdown.UpdateCountdowns: the call takes no time, so the re-render after a forced `loadCampaigns` is drawn at the tick's `now`; the source reads the clock again in `renderCampaigns` (line 455) after the awaited reads, which may be later.
- `test/crowdfunding.test.js` tests the Solidity contracts, whose source is not part of this model, and `scripts/deploy.js` only deploys them.
