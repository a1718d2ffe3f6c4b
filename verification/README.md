# monopoly-tool: game-session creation, in Dafny

This project models the part of the monopoly-tool web application that
creates a game session, and proves properties of that model. The bank
player fills in the new-game form: currency, initial balance,
cross-start bonus and number of players. The confirmation page then
checks those parameters and proposes default player names. On start it
calls `createGame`, which does three things:

- it draws a free six-digit game id;
- it draws one free six-character access code per player;
- it writes the transaction counter, one `/access/{code}` record per
  player and the `/games/game-{id}` record.

The game context holds the shared client state and updates a player's
presence by check-then-set.

Modules, one per source file plus shared pieces:

- `Wrappers`: `Option` and `Result`.
- `Store`: the realtime database as a tree of JSON nodes addressed by
  paths. `Get`, `Put`, `Exists` and `Write` are defined here, with the
  laws that a write is read back and that it leaves diverging paths alone.
  A store that cannot be reached rejects every read and drops every write.
- `Text`: `${n}` for integers, `Number(text)` for integer texts, and
  ASCII `toUpperCase`.
- `CreateGame`: `getRandomInteger`, `createRandomPlayerCode`, the two
  existence checks, the retry loops and `createGame`. `getRandomInteger`
  and the two checks are functions. The methods `CreateRandomPlayerCode`,
  `DrawGameId`, `DrawPlayerCode`, `DrawPlayerCodes`, `WritePlayers` and
  `CreateGame` carry the source's loops and are each proved equal to a
  specification function: `CodeOf`, `DrawFreeId`, `DrawFreeCode`,
  `DrawFreeCodes`, `PlayersUpTo` with `WriteAccessUpTo`, and
  `CreateGameSpec`. `CreateGameSpec` returns the allocated session and the
  store afterwards.
- `CreateGameProperties`: what a call guarantees about ids, codes, records,
  the players object, the owner, failures and the paths it touches.
- `CreateGameCorrected`: the in-call code collision (see Findings) and the
  corrected code loop.
- `GameContext`: the provider as a class, with its initial state,
  `resetGameContext` and `updateOnlineStatus`.
- `NewGameForm`: `validateForm`, the leading-zero strip and the defaults.
- `NewPage`: the parameter guard, the default names, the player-count
  effect and the start-game hand-off.

`Math.random()` is an input sequence of draws in [0, 1). `Date.now()` is
read twice, and both readings are parameters in milliseconds. The source
retries id and code draws without bound, so the model ends a call with
`DrawsExhausted` when the sequence runs out.

Facts about `createGame` that the model keeps:

- The retry loops at src/database/createGame.tsx:58 and :76 have no
  attempt cap.
- The writes are plain `set` calls. None of them is conditional on what
  the store holds.
- The `.catch` handlers of the writes at :65 and :96 (the handler is at
  :100) only log, and the game write at :107 has no handler, so a failed
  write does not change what `createGame` resolves to.
- `createGame` does not check the player count.
- Each code is checked against `/access` only, not against the codes
  drawn earlier in the same call (see Findings).

## Model

| member | source | states |
|---|---|---|
| `Store.Get` | src/database/createGame.tsx:16 | reading the empty path gives the node itself; `GetAppend` and the laws below relate longer reads to shorter ones |
| `Store.Put` | src/database/createGame.tsx:65 | `set` leaves the written value readable at its path, and a non-empty path leaves an object at the root |
| `Store.Exists` | src/database/createGame.tsx:16-18 | `get` followed by `exists()`: rejected exactly when the store is unreachable, otherwise true exactly when a node is at the path |
| `Store.Write` | src/database/createGame.tsx:65-67 | `set` keeps reachability; on a reachable store the written value is read back; an unreachable store is left unchanged |
| `Store.GetPutBelow` | src/database/createGame.tsx:107-113 | reading below a written path reads inside the written value |
| `Store.GetPutDiverge` | src/database/createGame.tsx:96-102 | a `set` leaves every path that is neither its prefix nor its extension unchanged |
| `Store.WriteKeepsDiverging` | src/database/createGame.tsx:65 | the same for store writes, reachable or not |
| `Store.GetAppend` | src/contexts/GameContext.tsx:65 | reading `p + q` is reading `q` inside the node at `p` |
| `Text.IntToString` | src/database/createGame.tsx:16 | the text of a non-negative integer is all digits; a negative one is `-` followed by digits |
| `Text.ToNumberOfIntToString` | src/database/createGame.tsx:107 | `Number` reads the text of an integer back as that integer, so different ids give different texts |
| `Text.ToNumber` | src/components/ModalWindow/NewGame.tsx:30 | `Number("")` is 0 and a digit text reads as its decimal value |
| `Text.ToUpperCase` | src/database/createGame.tsx:46 | upper-casing keeps the length and maps each character through ASCII upper-casing |
| `CreateGame.GetRandomInteger` | src/database/createGame.tsx:13 | for any draw in [0, 1) the result lies in [min, max], both included |
| `CreateGame.AlphabetAt` | src/database/createGame.tsx:39-46 | every character of the alphabet becomes `A`–`Z` or `0`–`9` after upper-casing |
| `CreateGame.AlphabetAtIsCharacters` | src/database/createGame.tsx:39 | counting out 26 upper-case letters, 26 lower-case letters and 10 digits gives the same character as indexing the alphabet string |
| `CreateGame.CharacterAtIsAlphabet` | src/database/createGame.tsx:39-43 | the character a draw picks is the alphabet string at index floor(draw × 62) |
| `CreateGame.CharacterAt` | src/database/createGame.tsx:43 | the character picked by any draw is `A`–`Z` or `0`–`9` once upper-cased |
| `CreateGame.CodeOf` | src/database/createGame.tsx:37-47 | a code has one character per draw, each `A`–`Z` or `0`–`9` |
| `CreateGame.CreateRandomPlayerCode` | src/database/createGame.tsx:37-47 | the counter loop builds exactly the code of its first `length` draws: `length` characters, each `A`–`Z` or `0`–`9` |
| `CreateGame.CheckIdExists` | src/database/createGame.tsx:15-24 | fails (with the `checkIdExists` tag) exactly when the store is unreachable, otherwise true exactly when `/ids/{id}` exists |
| `CreateGame.CheckPlayerCodeExists` | src/database/createGame.tsx:26-35 | the same for `/access/{code}` with the `checkPlayerCodeExists` tag |
| `CreateGame.DrawFreeId` | src/database/createGame.tsx:52-62 | on success the id comes from the last draw used, lies in [100000, 999999], was absent at its check, and every earlier candidate was present; failure is the id check's error on an unreachable store, otherwise exhaustion, and then every id drawn was present |
| `CreateGame.DrawFreeCode` | src/database/createGame.tsx:73-79 | on success the code is well formed and was absent from `/access` at its check; failures as for the id loop |
| `CreateGame.DrawFreeCodeFromDraws` | src/database/createGame.tsx:73-79 | the draws used are a whole number of six-draw blocks, the code found is spelled by the last of them and every earlier block spelled a code present in `/access`; on a reachable store a failure means every complete block spelled a present code |
| `CreateGame.DrawFreeCodes` | src/database/createGame.tsx:72-81 | one well-formed code per name, each absent at its check, using no more draws than given |
| `CreateGame.PlayersUpTo` | src/database/createGame.tsx:88-94 | after n iterations the n-th code holds the n-th player's record, whatever earlier player drew the same code |
| `CreateGame.WriteAccessUpTo` | src/database/createGame.tsx:96-102 | the access writes keep reachability, and an unreachable store receives none of them |
| `CreateGame.CreateGameSpec` | src/database/createGame.tsx:49-116 | reachability is kept; a success implies a reachable store, an id in [100000, 999999] and one code per name; a failure on an unreachable store leaves it unchanged |
| `CreateGame.Reply` | src/database/createGame.tsx:115 | resolves exactly when a session was allocated, with its id and token `empty`; the first code is present exactly when there is a name; a failure is passed on unchanged |
| `CreateGame.DrawGameId` | src/database/createGame.tsx:52-62 | the draw-check-redraw loop computes exactly `DrawFreeId` |
| `CreateGame.DrawPlayerCode` | src/database/createGame.tsx:73-79 | the per-name redraw loop computes exactly `DrawFreeCode` |
| `CreateGame.DrawPlayerCodes` | src/database/createGame.tsx:70-81 | the `for ... of` loop pushing codes computes exactly `DrawFreeCodes` |
| `CreateGame.WritePlayers` | src/database/createGame.tsx:87-103 | the `forEach` builds the players object and performs the access writes in code order |
| `CreateGame.CreateGame` | src/database/createGame.tsx:49-116 | `createGame` resolves to the id, first code and token of `CreateGameSpec`, and leaves the store that `CreateGameSpec` describes |
| `CreateGameProperties.PlayerRecordFields` | src/database/createGame.tsx:89-94 | a player record has exactly the keys name, isBank, balance and status, with the given name, the initial balance, `offline`, and isBank `owner` at index 0 and `"false"` otherwise |
| `CreateGameProperties.OwnerRecordIsIndexZero` | src/database/createGame.tsx:91 | a player record is flagged `owner` exactly for index 0 |
| `CreateGameProperties.PlayersKeys` | src/database/createGame.tsx:88-89 | the players object has exactly the drawn codes as keys |
| `CreateGameProperties.PlayersLastWriter` | src/database/createGame.tsx:88-94 | each entry is the record of the last index that drew its code |
| `CreateGameProperties.PlayersEntry` | src/database/createGame.tsx:88-94 | a code not drawn again later holds the record of its own index and name |
| `CreateGameProperties.PlayersStartFresh` | src/database/createGame.tsx:89-94 | every stored player has the initial balance, status `offline` and one of the given names |
| `CreateGameProperties.OwnerIsFirstPlayer` | src/database/createGame.tsx:82-91 | the owners are exactly the first code, or nobody if a later player drew the same code |
| `CreateGameProperties.WelcomeNotificationFields` | src/database/createGame.tsx:99 | the welcome notification is an `info` notification numbered 1, unread, stamped by the server, with exactly six keys |
| `CreateGameProperties.AccessRecordLayout` | src/database/createGame.tsx:96-100 | read by path, an access record holds the game id, the token, and the unread welcome notification under `notifications/1`, which is its only notification |
| `CreateGameProperties.AccessWritten` | src/database/createGame.tsx:96-100 | after the writes every drawn code has its access record with the game id, token `empty` and the welcome notification |
| `CreateGameProperties.AccessWritesKeep` | src/database/createGame.tsx:96 | the access writes change nothing outside `/access/{code}` for the drawn codes |
| `CreateGameProperties.GamePathsDiverge` | src/database/createGame.tsx:65-107 | different ids give diverging game paths and diverging counter paths, so two games never overwrite each other's records |
| `CreateGameProperties.CreatedIdIsFreeAndSixDigit` | src/database/createGame.tsx:52-62 | a created game id lies in [100000, 999999], has six digits, and `/ids/{id}` was absent on a reachable store |
| `CreateGameProperties.CreatedCodesAreFreeAndWellFormed` | src/database/createGame.tsx:69-81 | one code per player name, each well formed and absent from `/access` in the store the call started from |
| `CreateGameProperties.CreatedReply` | src/database/createGame.tsx:82-85 | with at least one name the reply is the id, the first code and `empty` |
| `CreateGameProperties.CreatedSessionLayout` | src/database/createGame.tsx:64-113 | after success the counter is 0, each code's access record points at the game, and the game record holds the options and the players object |
| `CreateGameProperties.CreateGameTouchesOnlyItsPaths` | src/database/createGame.tsx:65-107 | a successful call changes nothing outside the counter, the drawn codes' access records and the game record |
| `CreateGameProperties.CreateGameFailures` | src/database/createGame.tsx:55-81 | on an unreachable store the call rejects with the id check's error and writes nothing; on a reachable store it fails only when the draws run out: either every id drawn was present, or an id was found and the code loop failed |
| `CreateGameProperties.DrawFreeCodesSplit` | src/database/createGame.tsx:70-81 | when the loop succeeds for the first i names, running it for n names is those i codes followed by the loop for the other n − i names on the draws left over, with the draws used adding up |
| `CreateGameProperties.DrawFreeCodesFromDraws` | src/database/createGame.tsx:70-81 | when the loop succeeds for n names, for each i < n the first i + 1 codes are the first i codes followed by what the one-code loop finds on the draws the first i left over, the draws used add up, and these are the first i + 1 codes of the whole result |
| `CreateGameProperties.DrawFreeCodesFailure` | src/database/createGame.tsx:70-81 | on a reachable store the code loop fails only for lack of draws: some m < n codes were found with k draws, and from draw k on the one-code loop fails with every complete six-draw block spelling a present code |
| `CreateGameProperties.ExpiryIsOneWeek` | src/database/createGame.tsx:110-111 | with one clock reading the game expires 604800 s after creation, and with ordered readings no earlier |
| `CreateGameProperties.GameRecordPlayers` | src/database/createGame.tsx:107-113 | read by path, the game record holds the players object under `players` and each player's record under `players/{code}` |
| `CreateGameProperties.GameRecordKeepsOptions` | src/database/createGame.tsx:106-109 | the game record holds the options without the names, plus `players` and the two timestamps |
| `CreateGameCorrected.ZeroDrawsSpellA` | src/database/createGame.tsx:37-47 | six draws of 0.0 spell `AAAAAA` |
| `CreateGameCorrected.ZeroDrawsGiveA` | src/database/createGame.tsx:73-79 | while `AAAAAA` is free, six zero draws yield it |
| `CreateGameCorrected.TwoPlayersShareA` | src/database/createGame.tsx:72-81 | two players and twelve zero draws get the same code twice |
| `CreateGameCorrected.RepeatedCodeDropsOwner` | src/database/createGame.tsx:88-94 | a code drawn twice keeps only the later player, and there is no owner |
| `CreateGameCorrected.CreateGameAsWritten` | src/database/createGame.tsx:72-113 | on an empty store, two names and 13 zero draws, the call succeeds with one code for both players and stores a game without its first player or owner |
| `CreateGameCorrected.DrawFreshCode` | src/database/createGame.tsx:73-79 | the corrected loop returns a well-formed code absent from the store and not drawn before in this call |
| `CreateGameCorrected.DrawFreshCodeFromDraws` | src/database/createGame.tsx:73-79 | the draws used are a whole number of six-draw blocks, the corrected code is spelled by the last of them and every earlier block spelled a code present in `/access` or drawn before; on a reachable store a failure means every complete block did |
| `CreateGameCorrected.DrawDistinctCodes` | src/database/createGame.tsx:72-81 | the corrected codes are well formed, absent, and pairwise different |
| `CreateGameCorrected.DrawDistinctCodesSplit` | src/database/createGame.tsx:70-81 | when the corrected loop succeeds for the first i names, running it for n names is those i codes followed by the corrected loop for the other n − i names on the draws left over, with those i codes counted as taken |
| `CreateGameCorrected.DrawDistinctCodesFromDraws` | src/database/createGame.tsx:70-81 | when the corrected loop succeeds for n names, for each i < n the first i + 1 codes are the first i codes followed by what the corrected one-code loop finds on the draws they left over, avoiding them; the draws used add up and these are the first i + 1 codes of the whole result |
| `CreateGameCorrected.CreateGameDistinctSpec` | src/database/createGame.tsx:49-116 | `createGame` with the corrected loop keeps reachability; a success implies a reachable store, an id in range, and one code per name with no two codes equal |
| `CreateGameCorrected.DrawDistinctCodesFailure` | src/database/createGame.tsx:70-81 | on a reachable store the corrected code loop fails only for lack of draws: some m < n codes were found with k draws, and from draw k on every complete six-draw block spelled a present code or one already found |
| `CreateGameCorrected.CorrectedKeepsEveryPlayer` | src/database/createGame.tsx:82-94 | with the correction every player keeps its own record, the keys are the codes, and the first player is the one owner |
| `CreateGameCorrected.CorrectedFailsAsBefore` | src/database/createGame.tsx:55-81 | the correction fails on an unreachable store exactly as the original; on a reachable store only when the draws run out: either every id drawn was present, or an id was found and the corrected code loop failed |
| `GameContext.StatusPath` | src/contexts/GameContext.tsx:65 | the status path is the `status` field of the player under the game path |
| `GameContext.GameContextProvider.constructor` | src/contexts/GameContext.tsx:41-55 | the session starts inactive, with parameters PLN / "1500" / "200" / 4 and id 0, no names, names not defined, and no players read |
| `GameContext.GameContextProvider.ResetGameContext` | src/contexts/GameContext.tsx:57-62 | the names become empty and undefined, the session inactive, the parameters the empty object; the players read stay |
| `GameContext.GameContextProvider.UpdateOnlineStatus` | src/contexts/GameContext.tsx:64-81 | the status is written only when its node exists on a reachable store; otherwise the store is unchanged; no other path changes; there is no error outcome |
| `GameContext.StatusPathIsolated` | src/contexts/GameContext.tsx:65-73 | a presence update never touches another player's status, nor any player's name, balance or owner flag |
| `GameContext.GameRecordStatus` | src/database/createGame.tsx:107-109 | a player's status inside the game record is found under `players/{code}/status` |
| `GameContext.CreatedPlayersHaveStatus` | src/contexts/GameContext.tsx:65-71 | after a successful `createGame` every drawn code has a status node holding `offline`, so an update for it writes |
| `NewGameForm.OutOfRange` | src/components/ModalWindow/NewGame.tsx:30-35 | an empty field is out of range; a digit field is out of range exactly when its value is outside the bounds; a text that is not a number is never out of range |
| `NewGameForm.ValidateForm` | src/components/ModalWindow/NewGame.tsx:21-46 | one message per failing field: currency outside PLN/EUR/USD; balance empty or outside 1–10000; bonus empty or outside 0–1000; count outside 2–6. Success exactly when no message is set. Texts that are not numbers pass |
| `NewGameForm.DefaultFormIsValid` | src/components/ModalWindow/NewGame.tsx:15-18 | the defaults PLN / "1500" / "200" / 4 pass validation |
| `NewGameForm.LeadingZeros` | src/components/ModalWindow/NewGame.tsx:90 | counts the run of `0` at the front |
| `NewGameForm.StripLeadingZeros` | src/components/ModalWindow/NewGame.tsx:90 | the result is a suffix of the input, only `0`s were removed, it does not start with `0` followed by a digit, a non-empty input stays non-empty, and when anything was removed the result starts with a digit |
| `NewGameForm.StripIdempotent` | src/components/ModalWindow/NewGame.tsx:105 | stripping twice is stripping once |
| `NewGameForm.DigitsValueDropZeros` | src/components/ModalWindow/NewGame.tsx:90 | dropping leading zeros from a digit string keeps its value |
| `NewGameForm.StripKeepsNumber` | src/components/ModalWindow/NewGame.tsx:88-92 | for the texts a number field produces, the strip never changes what `Number` reads from the field |
| `NewGameForm.StripKeepsDigits` | src/components/ModalWindow/NewGame.tsx:103-107 | a stripped digit text is a digit text of the same value |
| `NewGameForm.StripKeepsValidation` | src/components/ModalWindow/NewGame.tsx:88-107 | for the texts a number field produces, the strip in either field never changes the outcome of validation |
| `NewPage.Truthy` | src/components/Pages/New.tsx:35 | exactly `undefined`, `""` and the number 0 are falsy |
| `NewPage.NumberOf` | src/components/Pages/New.tsx:35 | `Number(undefined)` is not a number, a number is itself, and a digit text reads as its value |
| `NewPage.InvalidParams` | src/components/Pages/New.tsx:42 | accepted parameters are all present and truthy, name PLN, EUR or USD, and give no number outside 1–10000, 0–1000 and 2–6; a numeric 0 anywhere is refused |
| `NewPage.VisitPage` | src/components/Pages/New.tsx:33-44 | the page renders nothing exactly when it redirects to /404 |
| `NewPage.AcceptedNumbersInRange` | src/components/Pages/New.tsx:35 | accepted numeric parameters have a listed currency, balance 1–10000, bonus 1–1000 (0 is falsy) and 2–6 players |
| `NewPage.ZeroBonusRedirects` | src/components/Pages/New.tsx:42 | a bonus of the number 0 is refused where the text "0" is accepted |
| `NewPage.GuardAgreesWithForm` | src/components/Pages/New.tsx:42 | for the form's values, the page accepts exactly when `validateForm` succeeds |
| `NewPage.InitialGameInfoIsAccepted` | src/contexts/GameContext.tsx:43-52 | the provider's initial parameters are the form's defaults, which the page accepts |
| `NewPage.ArrayLength` | src/components/Pages/New.tsx:29 | `Array.from({length})` has the number's length, or 0 for a negative or non-number; a length of 2^32 or more makes it throw a RangeError |
| `NewPage.DefaultPlayerNames` | src/components/Pages/New.tsx:29 | there are as many names as the length asks |
| `NewPage.DefaultPlayerNamesNumbered` | src/components/Pages/New.tsx:29 | entry i is `Gracz ` followed by the number i + 1, and no two names coincide |
| `NewPage.OnPlayerCountChange` | src/components/Pages/New.tsx:27-31 | a changed player count installs the default names and marks them not defined; when `Array.from` throws, the names are left empty and the effect stops there; nothing else changes |
| `NewPage.ValidCountGivesThatManyNames` | src/components/Pages/New.tsx:27-44 | for an accepted numeric count `Array.from` does not throw and there are exactly that many default names, between 2 and 6 |
| `NewPage.StartGame` | src/components/Pages/New.tsx:136-143 | `createGame` receives the four parameters and the current names; on success the page navigates to `/bank` with the id, first code and token; a rejection does not navigate |

## Left out

- Firebase I/O is reduced to sequential reads and writes on one tree. The
  writes at src/database/createGame.tsx:65, 96 and 107 are not awaited.
  Their interleaving, and a write that fails after an earlier write
  succeeded, are not modelled: a store is reachable or unreachable for a
  whole call.
- Firebase treats an empty object as absent. The model keeps an empty
  object as a present node.
- `console` logging is left out.
- `serverTimestamp()` is the placeholder node `ServerTime`.
- Two concurrent `createGame` calls can race on the same id or code. The
  model is of one client.
- `Math.random()` is a parameter sequence. A call that would need more
  draws than given ends with `DrawsExhausted`; the source loops without
  bound.
- `Date.now()` is two parameters. Sub-millisecond values and
  floating-point division are not modelled: the integer division equals
  the source's `floor` for integer milliseconds.
- `Text.ToNumber`: `Number` is modelled for the empty text and
  optionally negated decimal integers only. Whitespace, fractions,
  exponents, hex and `Infinity` read as not-a-number here, which differs
  from JavaScript.
- `NewGameForm.ValidateForm` and `NewPage.VisitPage` inherit this
  `Number`: a fraction or exponent text such as "0.5" or "1e5", which a
  number field can hold, is let through here, whereas JavaScript reads
  "0.5" as 0.5 and rejects it as a balance below 1.
- `NewPage.StartGame`: takes balance, bonus and count as integers, as
  `createGame`'s option type declares. A string passed through the
  navigation state would be stored as a string, and that is not modelled.
- `NewPage.OnPlayerCountChange`: `location.state` being absent (which
  makes the effect throw) is not modelled. What React does with the
  RangeError that a length of 2^32 or more raises is not modelled either:
  the model only records that the effect stops after emptying the names.
- `NewPage.ArrayLength`: the length is a whole number in the model, so
  the truncation of a fractional length and the 2^53 − 1 clamp of
  `ToLength` are not modelled. The clamp cannot matter, because any
  length of 2^32 or more already throws.
- `NewPage.VisitPage`: the navigation state is a value that is missing,
  a string or an integer. Other JavaScript values (fractions, booleans,
  objects) are not modelled.
- The code that navigates from the form to the confirmation page is not
  part of this model. `NewPage.ParamsOf` assumes the form's values arrive
  unchanged.
- `handleSubmit`, the modal windows, theming, the bank and player pages,
  and the realtime subscription (`GameSessionHandler`) are presentation
  or are not part of this model.
- `GameContext.StatusPath` treats the player code as one path segment.
  Firebase splits a path on `/` and drops empty segments, so an empty code
  or one containing `/` would address another node. Codes drawn by
  `createGame` are six letters or digits, for which the two agree.
- The React setters are plain field assignments. Batching and re-rendering
  are not modelled.
- `CreateGameCorrected.CreateGameDistinctSpec`: the correction is stated
  as a specification function, with its properties proved. The imperative
  `CreateGame.CreateGame` keeps the loop as written.

## Findings

| source | as written | input that shows it | evidently intended | confidence | as-written member | corrected member |
|---|---|---|---|---|---|---|
| src/database/createGame.tsx:72-103 | each drawn code is checked only against `/access` in the store, never against the codes already drawn in the same call; the players object is keyed by code, so a repeated code overwrites the earlier player | empty reachable store, names `["Gracz 1", "Gracz 2"]`, thirteen draws of 0.0: both players get `AAAAAA`, and only `Gracz 2` (not the owner) is stored | the codes of one game are pairwise different, every player is stored, and the first player is the owner | not executed; the chance per pair of players is about 1 in 1.5 × 10^9 | `CreateGameCorrected.CreateGameAsWritten` | `CreateGameCorrected.CorrectedKeepsEveryPlayer` |
