# Nexino casino backend: a verified model of its wagering and accounting core

Nexino is an Express and Prisma backend for an online casino with a crypto
market and a lootbox shop. Most of it is HTTP and database plumbing. This
project models the rules that sit inside the handlers, and proves what those
rules promise:

- the weighted slot draw and the evaluation of three reels into a win and a
  rounded net profit, in both versions (`src/casino/utils/slot-machine.util.ts`
  and the `test.js` prototype);
- the casino guard chain (`casinoMiddleware`) and how the slot, roulette and
  coin-flip handlers settle through `updateUserWallet`, which clamps a holding
  at zero;
- the lootbox routes: grouping equipment by gun, opening a case (the
  affordability check, the weighted drop, the debit and the new equipment
  row), selling one gun and selling everything;
- buying and selling crypto against the user's money (`buyCrypto`,
  `sellCrypto`), and the legacy `/buy` and `/sell` routes;
- the request validators (the roulette bet, the slot bet, the wallet body,
  the place body) and the `Bearer <token>` header parsing;
- the market's top movers, its wishlist rename and its batch rename.

The database is the `Store.Db` class. Its fields are the wallet table (a
sequence of rows), the `money` column by user id, the equipment table (a
sequence of rows) and the wishlists by id. Handlers are methods that modify
only the fields they write. The pure rules are functions, and lemmas state
their properties. JSON request values are the `JsValues.Value` datatype, with
JavaScript truthiness. Money, quantities, weights and drop rates are exact
reals. `Math.round(x)` is `Floor(x + 1/2)`.

Every `Math.random()` is an input `u` in [0, 1). The same holds for the token
verification, `parseFloat`, `parseInt`, the CoinGecko price, the Redis hashes,
the case and gun catalog, the live slot and roulette engines, and the GitHub
call. What the model proves therefore holds for every draw and every answer
of those services.

Two versions of the casino controller (`src/api/casino/controller/` and
`src/api/casino/controllers/`) run the same settlement logic, so one model,
`CasinoController`, cites both. The same holds for the legacy `/top-movers`
(`src/market/controller/market.controller.ts:147-148`): it is the same copy,
sort and slice as `MarketController.TopMovers`, a function that leaves its
input list as it was.

The slot machine's net profit is `Math.round(win - bet)`: the rounding is
applied to the difference, not to the win alone.

## Model

| member | source | states |
|---|---|---|
| JsStrings.Split | src/middlewares/authMiddleware.ts:25 | `split(" ")` always gives at least one piece, and no piece holds the separator |
| JsStrings.JoinSplit | src/middlewares/authMiddleware.ts:25 | joining the pieces of a split with the separator gives back the original string |
| JsStrings.SplitCount | src/middlewares/authMiddleware.ts:25-27 | a split has exactly one more piece than the string has separators |
| JsStrings.Join | src/middlewares/authMiddleware.ts:25 | `parts.join(sep)`: the pieces with one separator between each two, the inverse of the split |
| JsStrings.Occurrences | src/middlewares/authMiddleware.ts:25-27 | how many times a character occurs in a string, which fixes the number of pieces of a split |
| JsStrings.SplitWithoutSeparator | src/middlewares/authMiddleware.ts:25 | a string without the separator splits into itself alone |
| JsStrings.SplitAfterHead | src/middlewares/authMiddleware.ts:25 | a separator-free head and its separator split off as the first piece |
| JsStrings.SplitAtOneSeparator | src/middlewares/authMiddleware.ts:25-27 | `a + " " + b`, each side free of spaces, splits into exactly `[a, b]` |
| JsStrings.DoubleSeparatorGivesThreeParts | src/middlewares/authMiddleware.ts:25-27 | two adjacent spaces give three pieces, the middle one empty |
| JsStrings.TwoPartsRebuild | src/middlewares/authMiddleware.ts:27-34 | a two-piece split means the header is exactly first piece, space, token |
| JsStrings.JoinPrepend | src/middlewares/authMiddleware.ts:25 | adding a character to the first piece adds it to the joined string |
| JsStrings.LowerChar | src/middlewares/authMiddleware.ts:27 | ASCII capitals become lower-case letters; every other character is kept |
| JsStrings.ToLower | src/middlewares/authMiddleware.ts:27 | `toLowerCase` on ASCII: the length is kept, `A`-`Z` become `a`-`z` and every other character is kept |
| AuthMiddleware.BearerSpellings | src/middlewares/authMiddleware.ts:27 | `Bearer` and `BEARER` both lower-case to `bearer`, so both pass the scheme test |
| JsMath.Round | src/casino/utils/slot-machine.util.ts:55 | the result is the integer within one half below and above: x - 1/2 < n <= x + 1/2 |
| JsMath.Max | src/services/main.services.ts:136 | the result is one of the two arguments and at least both |
| JsMath.RoundMonotone | src/casino/utils/slot-machine.util.ts:55 | rounding never reverses an order |
| JsMath.RoundOfInteger | src/casino/utils/slot-machine.util.ts:55 | rounding leaves a whole number unchanged |
| JsValues.Get | src/api/market/controller/market.controller.ts:709 | a property read gives the stored field, and `undefined` for a missing field or a non-object |
| JsValues.Truthy | src/api/lootbox/controller/lootbox.controller.ts:363-375 | JavaScript truthiness as the `!value` tests use it: `undefined`, `null`, `false`, `""`, `0` and `NaN` are falsy, everything else is truthy |
| ClassValidator.Report | src/casino/dto/SlotMachine.dto.ts:12-30 | the error list names only the DTO's properties; it is empty exactly when every property passes, and it names every failing one |
| ClassValidator.ReportNamesFailures | src/casino/dto/SlotMachine.dto.ts:12-30 | with distinct property names, a name is reported exactly when its property fails |
| ClassValidator.Absent | src/api/localisation/dto/Localisation.dto.ts:25-31 | `@IsOptional()`: the value is `null` or `undefined`, which skips the property's other constraints |
| ClassValidator.IsString | src/casino/dto/SlotMachine.dto.ts:15 | `@IsString()`: the value is a string |
| ClassValidator.IsNumber | src/api/localisation/dto/Localisation.dto.ts:15 | `@IsNumber()` with default options: a finite number, so `NaN` and the infinities fail |
| ClassValidator.IsPositive | src/api/wallet/dto/Wallet.dto.ts:20 | `@IsPositive()`: a number above zero, `+Infinity` included |
| ClassValidator.Min | src/api/localisation/dto/Localisation.dto.ts:16 | `@Min(m)`: a number at least `m`, `+Infinity` included |
| ClassValidator.Max | src/api/localisation/dto/Localisation.dto.ts:17 | `@Max(m)`: a number at most `m`, `-Infinity` included |
| ClassValidator.VariationSelector | src/api/wallet/dto/Wallet.dto.ts:16 | the two variation selectors U+FE0E and U+FE0F that `isLength` leaves out of a length |
| ClassValidator.ValidatorLength | src/api/wallet/dto/Wallet.dto.ts:16 | the length `@MinLength` measures: never above the string's length, equal to it when there is no variation selector, and zero iff the string holds nothing but variation selectors |
| ClassValidator.MinLength | src/api/wallet/dto/Wallet.dto.ts:16 | `@MinLength(k)`: a string whose selector-free length is at least `k` |
| ClassValidator.IsNotEmpty | src/api/localisation/dto/Localisation.dto.ts:12 | `@IsNotEmpty()`: anything but `""`, `null` and `undefined` |
| ClassValidator.IsArray | src/api/casino/dto/Roulette.dto.ts:24 | `@IsArray()`: the value is an array |
| ClassValidator.ArrayMinSize | src/api/casino/dto/Roulette.dto.ts:28 | `@ArrayMinSize(k)`: an array of at least `k` elements |
| ClassValidator.ArrayMaxSize | src/api/casino/dto/Roulette.dto.ts:29-33 | `@ArrayMaxSize(k)`: an array of at most `k` elements |
| ClassValidator.IsEnum | src/api/casino/dto/Roulette.dto.ts:20 | `@IsEnum(E)` for a string enum: a string that is one of the enum's values |
| ClassValidator.EachNumberIn | src/api/casino/dto/Roulette.dto.ts:25-27 | `@IsNumber`, `@Min` and `@Max` with `each: true`: every element of an array, or the value itself when it is not an array, is a finite number in the range |
| ClassValidator.HexDigit | src/api/wallet/dto/Wallet.dto.ts:12 | a hexadecimal digit in either case |
| ClassValidator.UuidV4 | src/api/wallet/dto/Wallet.dto.ts:12 | the version 4 UUID shape: 36 characters, hyphens at 8, 13, 18 and 23, hex digits elsewhere, `4` at 14 and a variant digit 8, 9, A or B at 19 |
| ClassValidator.IsUuidV4 | src/api/wallet/dto/Wallet.dto.ts:12 | `@IsUUID('4')`: a string of that shape |
| SlotMachineDto.Validate | src/casino/dto/SlotMachine.dto.ts:12-30 | `userID` is reported iff it is not a UUID v4 string, `bet` iff it is not a positive number, `cryptoId` iff it is not a string with at least one character other than a variation selector |
| SlotMachineDto.UserIdValid | src/casino/dto/SlotMachine.dto.ts:14-16 | `userID` passes `@IsUUID('4')` and `@IsString()` |
| SlotMachineDto.BetValid | src/casino/dto/SlotMachine.dto.ts:20-22 | `bet` passes `@IsPositive()` |
| SlotMachineDto.CryptoIdValid | src/casino/dto/SlotMachine.dto.ts:25-27 | `cryptoId` passes `@IsString()` and `@MinLength(1)` |
| SlotMachineDto.ValidIffAllConstraints | src/casino/dto/SlotMachine.dto.ts:12-30 | the DTO is valid iff all three constraints hold |
| SlotMachineDto.OnlyUserIdCanFailAfterMiddlewareChecks | src/middlewares/casinoMiddleware.ts:70-86 | once the middleware has a positive bet and a non-empty crypto id, only `userID` and `cryptoId` can fail, `cryptoId` iff it holds nothing but variation selectors; with any other character in it only `userID` can fail |
| SlotMachineDto.LoneSelectorCryptoIdRefused | src/casino/dto/SlotMachine.dto.ts:26 | a crypto id of a single U+FE0F is reported by `@MinLength(1)` although it is a non-empty string |
| WalletDto.Validate | src/api/wallet/dto/Wallet.dto.ts:10-23 | `userId` is reported iff it is not a UUID v4, `cryptoId` iff it is not a string with at least one character other than a variation selector, `quantity` iff it is not positive |
| WalletDto.UserIdValid | src/api/wallet/dto/Wallet.dto.ts:12-13 | `userId` passes `@IsUUID('4')` |
| WalletDto.CryptoIdValid | src/api/wallet/dto/Wallet.dto.ts:16-17 | `cryptoId` passes `@MinLength(1)` |
| WalletDto.QuantityValid | src/api/wallet/dto/Wallet.dto.ts:20-21 | `quantity` passes `@IsPositive()` |
| WalletDto.ValidIffAllConstraints | src/api/wallet/dto/Wallet.dto.ts:10-23 | the body is valid iff all three constraints hold |
| WalletDto.NonPositiveQuantityRejected | src/api/wallet/dto/Wallet.dto.ts:20-21 | a zero or negative quantity is always reported |
| WalletDto.SelectorOnlyCryptoIdRejected | src/api/wallet/dto/Wallet.dto.ts:16 | a crypto id made only of variation selectors is reported |
| LocalisationDto.Validate | src/api/localisation/dto/Localisation.dto.ts:10-31 | each property is reported iff its constraint fails: a non-empty name, latitude in [-90, 90], longitude in [-180, 180], address and city undefined, null or strings |
| LocalisationDto.NameValid | src/api/localisation/dto/Localisation.dto.ts:11-13 | `name` is a string other than `""` |
| LocalisationDto.LatitudeValid | src/api/localisation/dto/Localisation.dto.ts:15-18 | `latitude` is a finite number in [-90, 90] |
| LocalisationDto.LongitudeValid | src/api/localisation/dto/Localisation.dto.ts:20-23 | `longitude` is a finite number in [-180, 180] |
| LocalisationDto.OptionalString | src/api/localisation/dto/Localisation.dto.ts:25-31 | `address` and `city` are absent or a string |
| LocalisationDto.ValidIffInRange | src/api/localisation/dto/Localisation.dto.ts:10-31 | a place is valid iff its name is a non-empty string, its coordinates are numbers within range, and address and city are undefined, null or strings |
| RouletteDto.Name | src/api/casino/dto/Roulette.dto.ts:5-16 | every bet type has one of the eight string values of the enum |
| RouletteDto.Parse | src/api/casino/dto/Roulette.dto.ts:5-16 | a string names a bet type iff it is one of the eight values, and parsing inverts `Name` |
| RouletteDto.ParseName | src/api/casino/dto/Roulette.dto.ts:5-16 | parsing the name of a bet type gives that bet type back |
| RouletteDto.IsColour | src/api/casino/dto/Roulette.dto.ts:7-9 | the bet types `Red`, `Black` and `Green`, the ones the `IsOptional` group names |
| RouletteDto.MaxNumbers | src/api/casino/dto/Roulette.dto.ts:29-33 | the maximum is 0 exactly for the colour bets, and at most 6 for every number bet |
| RouletteDto.TypeValid | src/api/casino/dto/Roulette.dto.ts:20-21 | `type` is one of the enum's string values |
| RouletteDto.NumbersShape | src/api/casino/dto/Roulette.dto.ts:24-28 | the group-free constraints of `numbers`: an array of at least one number, each in [0, 36] |
| RouletteDto.NumbersValidAsWritten | src/api/casino/dto/Roulette.dto.ts:23-35 | with no groups given, `numbers` passes iff it is absent, or an array of numbers in [0, 36] with at least one element that meets all five maximum sizes at once, so exactly one element |
| RouletteDto.ValidateAsWritten | src/api/casino/dto/Roulette.dto.ts:19-35 | as the handlers call it, `type` fails iff it is not an enum value, and `numbers` fails iff its ungrouped and grouped constraints do not all hold |
| RouletteDto.AsWrittenAllowsAtMostOneNumber | src/api/casino/dto/Roulette.dto.ts:28-33 | as written, an array of numbers that passes holds exactly one number, whatever the type |
| RouletteDto.AsWrittenRejectsTwoNumberSplit | src/api/casino/dto/Roulette.dto.ts:29-30 | as written, a split on two numbers is rejected |
| RouletteDto.AsWrittenAcceptsStraightWithoutNumbers | src/api/casino/dto/Roulette.dto.ts:34 | as written, a straight bet without numbers is accepted |
| RouletteDto.Validate | src/api/casino/dto/Roulette.dto.ts:19-35 | the intended validator: the list is empty iff the bet choice is valid for its own type, and `type` fails iff it is not an enum value |
| RouletteDto.NumbersValidForType | src/api/casino/dto/Roulette.dto.ts:23-35 | with each group applied to its own type: a colour bet may omit `numbers`, and a number bet needs between one and its own maximum of numbers in [0, 36] |
| RouletteDto.ValidBetChoice | src/api/casino/dto/Roulette.dto.ts:18-35 | the intended validity: a valid type whose numbers meet that type's rule |
| RouletteDto.ValidNumberBetCardinality | src/api/casino/dto/Roulette.dto.ts:23-34 | a valid number bet covers between one number and its type's maximum, each a number in [0, 36]; a colour bet may leave them out |
| RouletteDto.IntendedSplitAndStraight | src/api/casino/dto/Roulette.dto.ts:29-34 | the intended validator accepts a two-number split and rejects a straight bet without numbers |
| RouletteDto.IntendedSingleNumberAgreesWithAsWritten | src/api/casino/dto/Roulette.dto.ts:23-35 | one direction only: a choice the intended validator accepts with the numbers left out or with exactly one number also passes as written |
| RouletteDto.ValidatorsDisagreeExactly | src/api/casino/dto/Roulette.dto.ts:23-35 | for a valid type, both directions of where the validators part: only as written is a number bet without numbers accepted; only as intended are two or more numbers accepted (up to the type's maximum for a number bet, any count for a colour bet) |
| RouletteDto.ColourWithTwoNumbersDisagrees | src/api/casino/dto/Roulette.dto.ts:23-35 | `{type:"Red",numbers:[1,2]}` passes the intended validator and is refused as written |
| RouletteDto.ValidateRouletteDto | src/api/casino/dto/Roulette.dto.ts:39-44 | `betChoice` passes iff it is an object whose bet choice is valid |
| RouletteDto.ValidateBetChoice | src/api/casino/controller/casino.controller.ts:177-178 | the group-less `validate` of the transformed `betChoice` accepts iff it is an object with a valid type and numbers that pass every decorator at once |
| AuthMiddleware.ParseBearer | src/middlewares/authMiddleware.ts:25-34 | a token comes out iff the header splits into exactly two pieces, the first `bearer` in any case, and the token is the second piece |
| AuthMiddleware.ParseBearerShape | src/middlewares/authMiddleware.ts:25-34 | a header is accepted iff it is six letters spelling `bearer`, one space, then a space-free token, which is returned |
| AuthMiddleware.BearerTokenAccepted | src/middlewares/authMiddleware.ts:25-34 | `Bearer tok` and `BEARER tok` both give `tok` |
| AuthMiddleware.DoubleSpaceRejected | src/middlewares/authMiddleware.ts:25-27 | a double space between the two parts is rejected |
| AuthMiddleware.Authenticate | src/middlewares/authMiddleware.ts:9-63 | an absent header or a malformed one gives 401; the request continues with the decoded claims iff verification succeeds; for a well-formed `Bearer` header an expired token gives 401 exactly, a malformed token 403 exactly and any other verification error 500 exactly |
| AuthMiddleware.ExpiredIsUnauthorized | src/middlewares/authMiddleware.ts:49-52 | an expired token gives 401 |
| GithubController.ListRepos | src/api/github/controller/github.controller.ts:7-44 | an absent, non-string or malformed header gives 401; repositories are listed iff the header is well-formed and the call succeeds, with the token as the credential |
| GithubController.TokenPassedOn | src/api/github/controller/github.controller.ts:27-35 | for `Bearer tok`, the call is made with `tok` and its answer is returned |
| GithubController.MalformedHeaderNeverCallsOut | src/api/github/controller/github.controller.ts:18-25 | a malformed header gives 401 whatever the foreign service would have answered |
| Store.Db.constructor | src/services/main.services.ts:129-141 | a fresh store holds exactly the given tables |
| WeightedChoice.PrefixStep | test.js:2-12 | each cumulative weight is the previous one plus the next weight |
| WeightedChoice.Sum | src/casino/utils/slot-machine.util.ts:21 | the total weight, folded from the left as `reduce((sum, w) => sum + w, 0)` does |
| WeightedChoice.Prefix | src/api/lootbox/controller/lootbox.controller.ts:240-245 | the cumulative weight of the first `k` entries, what `currentSum` holds after `k` steps |
| WeightedChoice.NonNegative | src/casino/utils/slot-machine.util.ts:10-18 | every weight is at least zero |
| WeightedChoice.PrefixAll | test.js:3 | the last cumulative weight is the total weight |
| WeightedChoice.PrefixMonotone | test.js:2-12 | for non-negative weights the cumulative weights never decrease |
| WeightedChoice.SubtractiveWalk | src/casino/utils/slot-machine.util.ts:24-29 | the loop that subtracts each weight returns the first index whose cumulative weight exceeds the draw, or none when there is no such index |
| WeightedChoice.FirstAbove | src/casino/utils/slot-machine.util.ts:24-29 | entry `i` is the one the subtractive walk stops at: the draw is below its cumulative weight and at or above every earlier cumulative weight |
| WeightedChoice.NoneAbove | src/casino/utils/slot-machine.util.ts:24-30 | the draw is at or above every cumulative weight, so the walk falls through to the fallback |
| WeightedChoice.FirstAboveUnique | src/casino/utils/slot-machine.util.ts:24-29 | at most one index is the first above the draw |
| WeightedChoice.FirstAboveIsInterval | test.js:2-12 | for a non-negative draw over non-negative weights, index i is selected iff the draw lies in i's interval [Prefix(i), Prefix(i+1)) |
| WeightedChoice.DrawBelowTotalIsCovered | src/casino/utils/slot-machine.util.ts:20-31 | a draw in [0, total) always selects some entry, so the fallback is never needed |
| WeightedChoice.ScaledDraw | src/casino/utils/slot-machine.util.ts:22 | a uniform draw in [0, 1) scaled by a positive total lies in [0, total) |
| WeightedChoice.CumulativeWalk | src/api/lootbox/controller/lootbox.controller.ts:234-251 | the loop that accumulates drop rates returns the first index whose cumulative rate reaches the draw, or none when there is no such index |
| WeightedChoice.FirstCovering | src/api/lootbox/controller/lootbox.controller.ts:244-250 | entry `i` is the one the `randomNumber <= currentSum` loop stops at: the draw is at most its cumulative rate and above every earlier cumulative rate |
| WeightedChoice.NoneCovering | src/api/lootbox/controller/lootbox.controller.ts:244-253 | the draw is above every cumulative rate, so no item is selected |
| WeightedChoice.FirstCoveringUnique | src/api/lootbox/controller/lootbox.controller.ts:234-251 | at most one index is the first to reach the draw |
| WeightedChoice.FirstCoveringIsInterval | src/api/lootbox/controllers/lootbox.controller.ts:109-124 | index i is selected iff the draw lies in (Prefix(i), Prefix(i+1)], or it is the first index and the draw is at most its rate |
| WeightedChoice.DrawWithinTotalIsCovered | src/api/lootbox/controller/lootbox.controller.ts:234-251 | a draw of at most the total always selects some item |
| WeightedChoice.ScaledDrawIsCovered | src/api/lootbox/controllers/lootbox.controller.ts:109-124 | a scaled uniform draw always selects an item, so the "no item" branch is unreachable |
| SlotMachineUtil.Weights | src/casino/utils/slot-machine.util.ts:21 | the weights are those of the symbols, in order |
| SlotMachineUtil.WeightedRandom | src/casino/utils/slot-machine.util.ts:20-31 | the drawn symbol is a table member: the first whose cumulative weight exceeds the scaled draw, else the first symbol |
| SlotMachineUtil.DrawnBy | src/casino/utils/slot-machine.util.ts:20-31 | the symbol `weightedRandom` gives for the draw: the first entry above the scaled draw, or the first symbol when none is |
| SlotMachineUtil.DrawnSymbolOwnsInterval | src/casino/utils/slot-machine.util.ts:20-31 | the symbol drawn is the one whose cumulative-weight interval holds the scaled draw |
| SlotMachineUtil.DrawNeverFallsBack | src/casino/utils/slot-machine.util.ts:30 | with a positive total weight the fallback to the first symbol is never taken |
| SlotMachineUtil.Names | src/casino/utils/slot-machine.util.ts:33-41 | the names of the reels, in order |
| SlotMachineUtil.SpinReels | src/casino/utils/slot-machine.util.ts:33-41 | one draw per reel; every drawn symbol is a table member drawn by its own `u`, and the names are those of the drawn symbols |
| SlotMachineUtil.AllSame | src/casino/utils/slot-machine.util.ts:44 | `every(s => s === drawnSymbols[0])`: all names equal the first |
| SlotMachineUtil.CountOf | src/casino/utils/slot-machine.util.ts:45 | the number of names equal to a given name, the length of the `filter` `twoSame` tests |
| SlotMachineUtil.WinAmount | src/casino/utils/slot-machine.util.ts:47-53 | bet times the first reel's value times 2 on three of a kind, bet times that value when at least two names equal the first, and 0 otherwise |
| SlotMachineUtil.Evaluate | src/casino/utils/slot-machine.util.ts:55-62 | the result object: the drawn names, the rounded win, the bet, and the net profit `Math.round(win - bet)` |
| SlotMachineUtil.SlotMachine | src/casino/utils/slot-machine.util.ts:20-62 | exactly three table symbols are drawn, each by its own draw, and the result is their evaluation |
| SlotMachineUtil.TableShape | src/casino/utils/slot-machine.util.ts:10-18 | the weights sum to 1 and each multiplier lies in [1.5, 15] |
| SlotMachineUtil.TableNamesDistinct | src/casino/utils/slot-machine.util.ts:10-18 | no two symbols of the table share a name |
| SlotMachineUtil.FromTable | src/casino/utils/slot-machine.util.ts:10-18 | every reel is one of the seven table symbols |
| SlotMachineUtil.WinCountsMatchesOfReelZero | src/casino/utils/slot-machine.util.ts:44-53 | the win is bet times the first reel's value times the number of other reels that show the first reel's symbol |
| SlotMachineUtil.ThreeOfAKindPaysDouble | src/casino/utils/slot-machine.util.ts:44-50 | three of a kind pays bet times value times 2 |
| SlotMachineUtil.PairAwayFromReelZeroPaysNothing | src/casino/utils/slot-machine.util.ts:45-53 | reels [A, B, B] pay nothing |
| SlotMachineUtil.WinBounds | src/casino/utils/slot-machine.util.ts:10-18 | for a non-negative bet on table symbols the win lies in [0, 30 × bet] |
| SlotMachineUtil.NetProfitAtLeastMinusBet | src/casino/utils/slot-machine.util.ts:47-61 | the net profit is at least round(-bet), and at least -bet for a whole-number bet |
| SlotPrototype.Weights | test.js:3 | the weights are those of the symbols, in order |
| SlotPrototype.Names | test.js:18-26 | the names are those of the symbols, in order |
| SlotPrototype.WeightedRandom | test.js:2-15 | the name returned belongs to the table: the first symbol whose cumulative weight exceeds the scaled draw, else the first |
| SlotPrototype.DrawnBy | test.js:2-15 | the name `weightedRandom` gives for the draw: the first entry above the scaled draw, or the first name when none is |
| SlotPrototype.DrawMatchesCumulativeInterval | test.js:2-12 | the subtractive walk selects the symbol whose cumulative-weight interval holds the scaled draw |
| SlotPrototype.SpinReels | test.js:28-34 | one table name per draw, each drawn by its own `u` |
| SlotPrototype.Find | test.js:42-45 | the symbol found has the name looked up; none is found iff no symbol has that name |
| SlotPrototype.AllSame | test.js:38 | all drawn names equal the first |
| SlotPrototype.Winnings | test.js:37-46 | bet times the payout of the symbol found for the first name when all three names agree, and 0 otherwise, also when no symbol has that name |
| SlotPrototype.SlotMachine | test.js:28-52 | three table names are drawn; the winnings are those of the payout rule and the total bet is the bet |
| SlotPrototype.NetResult | test.js:61 | the net result `playSlotMachine` logs: winnings minus the bet |
| SlotPrototype.TableWeightsSumToNineTenths | test.js:18-26 | the weights sum to 0.9, not 1, so the draw is scaled by the real total |
| SlotPrototype.PositivePayouts | test.js:18-26 | every payout of the table is above zero |
| SlotPrototype.TablePayouts | test.js:18-26 | every payout lies in [2, 20] |
| SlotPrototype.WinsIffAllSame | test.js:37-46 | a positive bet wins iff the three names agree, and then wins bet times that symbol's payout |
| SlotPrototype.NetResultAtLeastMinusBet | test.js:48-61 | the net result is never below minus the bet |
| MainServices.FindWallet | src/services/main.services.ts:129-131 | the index of the first row of the user and crypto; none exactly when no row matches |
| MainServices.Matches | src/services/main.services.ts:129-131 | the `findFirst` filter: the row has the user id and the crypto id |
| MainServices.GetUserWallet | src/services/main.services.ts:40-51 | a row is in the result iff it is in the table and its user id matches; there are no more rows than in the table |
| MainServices.FindCrypto | src/middlewares/casinoMiddleware.ts:88-98 | the row found belongs to the list and has the crypto id; none iff no row has it |
| MainServices.FindCryptoAgreesWithFindWallet | src/middlewares/casinoMiddleware.ts:88-98 | the row the middleware finds in the user's list is the very row `updateUserWallet` writes |
| MainServices.FirstRowMatches | src/middlewares/casinoMiddleware.ts:88-91 | when the first row matches, both lookups find it |
| MainServices.FirstRowSkipped | src/middlewares/casinoMiddleware.ts:88-91 | when the first row does not match, both lookups pass over it |
| MainServices.UserWalletStep | src/services/main.services.ts:40-51 | the user's rows are the first row when it is the user's, followed by the user's rows of the rest |
| MainServices.FindCryptoStep | src/middlewares/casinoMiddleware.ts:89-91 | `find` takes the first row when it has the crypto id, and otherwise searches the rest |
| MainServices.ClampedQuantity | src/services/main.services.ts:136 | the new quantity is never negative, is old + delta or 0, and is old + delta when that is non-negative |
| MainServices.ApplyDelta | src/services/main.services.ts:123-148 | the update fails iff no row matches, and keeps the table size |
| MainServices.ApplyDeltaWritesOneRow | src/services/main.services.ts:136-141 | only the matched row changes: its quantity becomes max(0, old + delta) and every other row keeps its value |
| MainServices.ApplyDeltaKeepsNonNegative | src/services/main.services.ts:136 | whatever the delta, non-negative quantities stay non-negative |
| MainServices.ZeroDeltaChangesNothing | src/services/main.services.ts:136 | a zero delta leaves a non-negative table unchanged |
| MainServices.ClampOnlyOnOverdraw | src/services/main.services.ts:136 | the new quantity is exactly old + delta when delta is at least -old, and 0 otherwise |
| MainServices.UpdateUserWallet | src/services/main.services.ts:123-148 | a missing row gives "Wallet not found" and changes nothing; otherwise the table becomes the clamped update and the updated row is returned |
| MainServices.WalletsAfterUpdate | src/services/main.services.ts:123-148 | the wallet table once `updateUserWallet` returns: the first matching row set to max(0, quantity + delta), or the table as it was when no row matches |
| MainServices.AllNonNegative | src/services/main.services.ts:136 | every wallet quantity is at least zero, what the clamp keeps |
| MainServices.UpdateUserMoney | src/services/main.services.ts:150-156 | money becomes old + delta and the new value is returned; for a missing user the update fails and nothing changes |
| CasinoMiddleware.TokenAfterSpace | src/middlewares/casinoMiddleware.ts:37-43 | the token is the second piece of the header's split, and is absent when that piece is absent or empty |
| CasinoMiddleware.TokenAfterBearer | src/middlewares/casinoMiddleware.ts:37 | for `scheme tok`, both space-free and the token non-empty, the token is `tok` |
| CasinoMiddleware.TokenUser | src/middlewares/casinoMiddleware.ts:37-50 | success iff there is a token and it verifies to a non-empty user id, which is returned; every failure is 401 or 500, and 500 exactly when verification throws |
| CasinoMiddleware.BetValue | src/middlewares/casinoMiddleware.ts:62-74 | the `parseFloat` result as the DTO sees it: a finite number, `NaN` or an infinity |
| CasinoMiddleware.Guard | src/middlewares/casinoMiddleware.ts:30-122 | no token gives 401; any rejection is 400, 401 or 500; once the token gives a user, a missing or empty bet or crypto id gives 400; the request passes iff the token gives a user, bet and crypto id are present and non-empty, the bet parses to a positive finite number, the DTO accepts the user id and finds a character other than a variation selector in the crypto id, and the crypto is in the user's wallet with a quantity that covers the bet |
| CasinoMiddleware.MissingTokenShortCircuits | src/middlewares/casinoMiddleware.ts:37-43 | without a token the outcome is 401 whatever the verification, the parameters and the wallets |
| CasinoMiddleware.BadBetRejected | src/middlewares/casinoMiddleware.ts:62-68 | a bet that is NaN, minus infinity or at most 0 gives 400 |
| CasinoMiddleware.InsufficientFundsRejected | src/middlewares/casinoMiddleware.ts:100-105 | a held quantity below the bet is rejected |
| CasinoMiddleware.ValidatedWalletCoversBet | src/middlewares/casinoMiddleware.ts:108-114 | after the guard, the wallet row `updateUserWallet` will write exists and 0 < bet <= its quantity |
| CasinoController.PlaySlot | src/api/casino/controller/casino.controller.ts:96-119 | the net profit goes to the player's wallet in exactly one update; the reply is 400 iff no row matches, and otherwise reports the updated row |
| CasinoController.WholeBetSlotSettlesExactly | src/api/casino/controllers/casino.controller.ts:30-33 | with the net profit of the casino utilities' slot machine (this controller calls the casino services' `SlotMachine`, which is not part of this model), a whole-number bet the wallet covers settles exactly: the stored quantity becomes the old one plus the net profit and the clamp never acts |
| CasinoController.FractionalBetLossIsClamped | src/api/casino/controller/casino.controller.ts:100-103 | with the net profit of the casino utilities' slot machine (this controller calls the casino services' `SlotMachine`, which is not part of this model), a losing spin of 2.6 with 2.6 held reports -3, and only the clamp keeps the wallet at 0 |
| CasinoController.AsBetChoice | src/api/casino/controller/casino.controller.ts:177-187 | an object becomes a bet choice with its `type` and `numbers`; anything else gives no instance |
| CasinoController.BodyWithoutNumbers | src/api/casino/dto/Roulette.dto.ts:28-34 | as the handlers validate it (no groups), a `{ type }` body without numbers is accepted for every bet type |
| CasinoController.TwoNumberSplitBodyRefused | src/api/casino/dto/Roulette.dto.ts:29-30 | as the handlers validate it, a `Split` body with the two numbers 1 and 2 is refused |
| CasinoController.IntendedBodyWithoutNumbers | src/api/casino/dto/Roulette.dto.ts:28-34 | with the validation groups applied per type as intended, a `{ type }` body without numbers is accepted iff the type is a colour |
| CasinoController.PlayRoulette | src/api/casino/controller/casino.controller.ts:169-217 | a falsy `betChoice`, or one the group-less `validate` refuses, gives 400 before the wheel; the game is played iff the choice passes that validation, the wheel answers and the payout is non-zero, and then the payout is applied; otherwise the wallets are unchanged |
| CasinoController.Toss | src/api/casino/controller/casino.controller.ts:284 | the side is heads iff the draw is below 0.5 |
| CasinoController.CoinPayout | src/api/casino/controller/casino.controller.ts:286 | twice the bet on a win, nothing on a loss |
| CasinoController.ValidSide | src/api/casino/controller/casino.controller.ts:275-280 | the choice passes iff it is the string `heads` or `tails` |
| CasinoController.PlayCoinFlip | src/api/casino/controller/casino.controller.ts:272-305 | a choice other than heads or tails gives 400 and changes nothing; otherwise payout - bet goes to the wallet, the flip succeeds iff the wallet exists and answers 500 iff it is missing, and the reported balance is quantity + payout - bet |
| CasinoController.CoinFlipSettlesExactly | src/api/casino/controllers/casino.controller.ts:112-126 | the delta is +bet on a win and -bet on a loss, and with the wallet covering the bet it is applied without clamping |
| CasinoController.CoinFlipWinsOnItsHalf | src/api/casino/controllers/casino.controller.ts:112-119 | heads wins exactly on draws below 0.5 and tails exactly on the rest |
| LootboxServices.Copies | src/api/lootbox/services/lootbox.services.ts:16-18 | exactly the rows of the user and gun |
| LootboxServices.WithoutCopies | src/api/lootbox/services/lootbox.services.ts:30-35 | exactly the other rows remain, and with the copies they account for the whole table |
| LootboxServices.NegativeCredit | src/api/lootbox/services/lootbox.services.ts:27-28 | a negative quantity of a priced gun gives a negative credit |
| LootboxServices.RefusalChangesNothing | src/api/lootbox/services/lootbox.services.ts:16-25 | a user without the gun, or with fewer copies than asked, fails and nothing changes |
| LootboxServices.SaleDeletesEveryCopy | src/api/lootbox/services/lootbox.services.ts:30-35 | past the refusals, every copy of the gun is deleted, whatever the quantity, and every other row is kept |
| LootboxServices.SaleCredit | src/api/lootbox/services/lootbox.services.ts:27-58 | a sale credits quantity times the first copy's price to this user only, and reports what it credited |
| LootboxServices.MissingUserLosesCopies | src/api/lootbox/services/lootbox.services.ts:30-42 | a missing user fails with the copies already deleted and no money moved |
| LootboxServices.SellingOneOfTwoDeletesBoth | src/api/lootbox/services/lootbox.services.ts:30-35 | selling one of two copies deletes both and pays for one |
| LootboxServices.NegativeQuantityDebits | src/api/lootbox/services/lootbox.services.ts:20-28 | a negative quantity passes the checks and debits the seller |
| LootboxServices.IsCopy | src/api/lootbox/services/lootbox.services.ts:9-14 | the `findMany` filter: the row has the user id and the gun id |
| LootboxServices.Credit | src/api/lootbox/services/lootbox.services.ts:28 | the amount credited: quantity times the item price |
| LootboxServices.SellOutcome | src/api/lootbox/services/lootbox.services.ts:3-63 | in the service's order: no copy, or fewer copies than the quantity, refuses with no change; otherwise every copy is deleted, a missing user then fails with the copies gone, and an existing user is credited quantity times the first copy's price |
| LootboxServices.SellItem | src/api/lootbox/services/lootbox.services.ts:3-63 | the equipment, the money and the result are those of the service's sequence of refusals, deletion, lookup and credit |
| LootboxController.IndexOfGun | src/api/lootbox/controller/lootbox.controller.ts:78 | the index found holds the gun; none iff no entry holds it |
| LootboxController.AddRow | src/api/lootbox/controller/lootbox.controller.ts:77-92 | one step of the `reduce`: the entry of the row's gun gets one more, or a new entry with the row's id, name, price and quantity 1 is appended |
| LootboxController.Grouped | src/api/lootbox/controller/lootbox.controller.ts:76-99 | the `reduce` over the rows, from the left and starting from `[]` |
| LootboxController.CountGun | src/api/lootbox/controller/lootbox.controller.ts:80-81 | the number of rows of a gun, what its entry's quantity should be |
| LootboxController.TotalQuantity | src/api/lootbox/controller/lootbox.controller.ts:76-99 | the sum of the entries' quantities |
| LootboxController.DistinctGuns | src/api/lootbox/controller/lootbox.controller.ts:78-80 | no two entries have the same gun id, which the `find` before each push keeps |
| LootboxController.FirstRow | src/api/lootbox/controller/lootbox.controller.ts:76-99 | the first row holding a gun; none iff no row holds it |
| LootboxController.FirstRowAppend | src/api/lootbox/controller/lootbox.controller.ts:76-99 | adding a row keeps an existing first row, and gives the new row as the first row of a new gun |
| LootboxController.CountAbsent | src/api/lootbox/controller/lootbox.controller.ts:78-89 | a gun no row holds has count 0 |
| LootboxController.TotalAfterBump | src/api/lootbox/controller/lootbox.controller.ts:82-84 | replacing one entry changes the total by the difference of the quantities |
| LootboxController.AddRowStep | src/api/lootbox/controller/lootbox.controller.ts:78-97 | one step of the reduce bumps the row's gun, or appends it with quantity 1 and the row's name and price, and adds one to the total |
| LootboxController.GroupedLast | src/api/lootbox/controller/lootbox.controller.ts:76-99 | grouping all rows is one reduce step after grouping all but the last |
| LootboxController.CountLast | src/api/lootbox/controller/lootbox.controller.ts:78-89 | the last row adds one to its gun's count and nothing to the others |
| LootboxController.GroupedDistinct | src/api/lootbox/controller/lootbox.controller.ts:78-97 | the entries have distinct guns and their quantities sum to the row count |
| LootboxController.AddRowKeepsGuns | src/api/lootbox/controller/lootbox.controller.ts:78-97 | a reduce step keeps every gun that has an entry and gives the row's own gun one |
| LootboxController.GroupedCovers | src/api/lootbox/controller/lootbox.controller.ts:76-99 | every row's gun has an entry |
| LootboxController.GroupedCountsRows | src/api/lootbox/controller/lootbox.controller.ts:76-99 | every entry's gun has a row and its quantity is the number of rows holding it |
| LootboxController.GroupedCounts | src/api/lootbox/controller/lootbox.controller.ts:76-99 | one entry per distinct gun; each quantity counts that gun's rows, so the quantities sum to the row count |
| LootboxController.NewGunNotInPrefix | src/api/lootbox/controller/lootbox.controller.ts:82-97 | a gun with no entry yet has no row yet |
| LootboxController.FirstRowsKept | src/api/lootbox/controller/lootbox.controller.ts:82-85 | adding a row keeps each old entry's gun, name, price and first row |
| LootboxController.FirstRowOfNewEntry | src/api/lootbox/controller/lootbox.controller.ts:86-96 | an entry added for a new gun has the new row as its first row and takes its name and price |
| LootboxController.FirstRowsStep | src/api/lootbox/controller/lootbox.controller.ts:76-99 | adding a row keeps each entry's first row, and a new entry's first row is the new row |
| LootboxController.GroupedFirstRows | src/api/lootbox/controller/lootbox.controller.ts:86-96 | each entry takes its name and price from its gun's first row |
| LootboxController.GroupedInFirstRowOrder | src/api/lootbox/controller/lootbox.controller.ts:76-99 | the entries come in the order of their guns' first rows |
| LootboxController.GroupEquipment | src/api/lootbox/controller/lootbox.controller.ts:76-99 | the reduce loop gives the grouping, with distinct guns, per-gun counts and a total equal to the row count |
| LootboxController.UserRows | src/api/lootbox/controller/lootbox.controller.ts:69 | exactly the rows of the user |
| LootboxController.OtherRows | src/api/lootbox/controller/lootbox.controller.ts:474 | exactly the other users' rows remain, and with the user's rows they make up the table |
| LootboxController.OtherRowsOfAbsentUser | src/api/lootbox/controller/lootbox.controller.ts:474 | a user without rows deletes nothing |
| LootboxController.ListEquipment | src/api/lootbox/controller/lootbox.controller.ts:51-109 | a token failure is passed on; no rows gives "no items"; otherwise the grouped rows, whose quantities sum to the row count |
| LootboxController.DropRates | src/api/lootbox/controller/lootbox.controller.ts:234-245 | the drop rates of the case's items, in order |
| LootboxController.OpenCaseChecks | src/api/lootbox/controller/lootbox.controller.ts:174-216 | each refusal is 400, 401, 404 or 500; a missing case id gives 400; success means a verified user, a known case and money that covers its price |
| LootboxController.CaseTooExpensiveRejected | src/api/lootbox/controller/lootbox.controller.ts:210-216 | money below the case price gives 400 before any draw |
| LootboxController.Awarded | src/api/lootbox/controller/lootbox.controller.ts:240-280 | the outcome of an opened case: the drawn item names a non-zero gun id with a gun hash, the user paid the case price without going below zero, and one row of that gun was added |
| LootboxController.DrawOpens | src/api/lootbox/controller/lootbox.controller.ts:244-266 | the drawn item has a non-zero gun id with a gun hash, so none of the 500 answers applies |
| LootboxController.DrawAndAward | src/api/lootbox/controller/lootbox.controller.ts:234-280 | a failed pick, a NaN or zero gun id or a missing gun hash answers 500 and writes nothing; otherwise the gun of the first item whose cumulative rate reaches the scaled draw is recorded and the case price is debited without going below zero; whenever that first item has a non-zero gun id with a gun hash, the case opens |
| LootboxController.OpenCase | src/api/lootbox/controller/lootbox.controller.ts:156-297 | a failed check is replied and nothing changes; on success the gun is the first item whose cumulative rate reaches the scaled draw, money drops by exactly the price and stays non-negative, and exactly one row is added; once the checks pass, a drawn item with a non-zero gun id and a gun hash always opens the case |
| LootboxController.IsInteger | src/api/lootbox/controller/lootbox.controller.ts:362-377 | an `itemId` Prisma can take as the `Int` gun id: a number with no fractional part in [-2^31, 2^31) |
| LootboxController.IsIntegerEdges | src/api/lootbox/services/lootbox.services.ts:9-14 | 2^31 fails `IsInteger`, which makes `SellItemRoute` answer the catch block's "An error occurred while selling items"; -2^31 and 2^31 - 1 pass |
| LootboxController.SellItemRoute | src/api/lootbox/controller/lootbox.controller.ts:344-397 | a missing itemId or quantity gives 400 before the service; for a finite quantity the tables and the reply are those of `SellItem`; `+Infinity` is refused with no change; `-Infinity` deletes every copy, then answers "User not found" for a missing user or `BalanceUnrepresentable` |
| LootboxController.PriceSum | src/api/lootbox/controller/lootbox.controller.ts:455-459 | the total `gunPrice` of the rows, added from the left |
| LootboxController.SumPrices | src/api/lootbox/controller/lootbox.controller.ts:455-459 | the loop's total is the sum of the rows' prices |
| LootboxController.SellAll | src/api/lootbox/controller/lootbox.controller.ts:426-486 | the user's money grows by the sum of their rows' prices and all their rows are deleted; no rows changes nothing; a missing user changes nothing |
| LootboxController.SellAllLeavesNoRows | src/api/lootbox/controller/lootbox.controller.ts:468-474 | after selling everything, no row of the user is left and every other user's row is kept |
| LootboxCatalogController.FindCase | src/api/lootbox/controllers/lootbox.controller.ts:82-88 | the case found is in the catalog with that id; none iff no case has it |
| LootboxCatalogController.FindGun | src/api/lootbox/controllers/lootbox.controller.ts:126-140 | the gun found is in the catalog with that name; none iff no gun has it |
| LootboxCatalogController.DropRates | src/api/lootbox/controllers/lootbox.controller.ts:109-119 | the drop rates of the case's items, in order |
| LootboxCatalogController.ListEquipment | src/api/lootbox/controllers/lootbox.controller.ts:13-45 | a token failure is passed on; no rows gives "no items"; otherwise exactly the user's rows |
| LootboxCatalogController.OpenCaseChecks | src/api/lootbox/controllers/lootbox.controller.ts:66-107 | each refusal is 400, 401, 404 or 500; an unknown case gives 404; success means a known case whose price the user's money covers |
| LootboxCatalogController.CaseTooExpensiveRejected | src/api/lootbox/controllers/lootbox.controller.ts:102-107 | money below the price gives 400 before the draw |
| LootboxCatalogController.Awarded | src/api/lootbox/controllers/lootbox.controller.ts:115-155 | the outcome of an opened case: a gun of the drawn item's name exists, the user paid the case price without going below zero, and one row of that gun was added |
| LootboxCatalogController.DrawOpens | src/api/lootbox/controllers/lootbox.controller.ts:118-140 | a gun of the drawn item's name exists, so none of the 500 answers applies |
| LootboxCatalogController.DrawAndAward | src/api/lootbox/controllers/lootbox.controller.ts:109-155 | a failed pick or an unknown gun name answers 500 and writes nothing; otherwise the gun named by the first item whose cumulative rate reaches the scaled draw is recorded and the case price is debited without going below zero; whenever a gun of that item's name exists, the case opens |
| LootboxCatalogController.OpenCase | src/api/lootbox/controllers/lootbox.controller.ts:48-173 | a refusal changes nothing; on success the gun is named by the first item whose cumulative rate reaches the scaled draw, money becomes money - price and stays non-negative, and one row with the gun's id, name and price is added; once the checks pass, a drawn item whose gun exists always opens the case |
| MarketServices.BuyOutcome | src/api/market/services/market.services.ts:65-123 | a buy fails iff the wallet is missing, the user's money is missing, or the cost exceeds the money |
| MarketServices.SellOutcome | src/api/market/services/market.services.ts:125-180 | a sell fails iff the wallet is missing, it holds less than the quantity, or the user's money is missing |
| MarketServices.Cost | src/api/market/services/market.services.ts:81 | the cost or the proceeds: quantity times the price |
| MarketServices.BuyEffect | src/api/market/services/market.services.ts:99-112 | a buy debits exactly quantity × price and leaves money non-negative; it adds the quantity to the one matched row, and nothing else changes |
| MarketServices.SellEffect | src/api/market/services/market.services.ts:156-169 | a sell credits exactly quantity × price; it removes the quantity from the matched row, which stays non-negative, and nothing else changes |
| MarketServices.FindWalletIgnoresQuantity | src/api/market/services/market.services.ts:73-79 | changing a row's quantity does not change which row is found first |
| MarketServices.QuantityRestored | src/api/market/services/market.services.ts:65-180 | setting a row's quantity and setting it back leaves the table as it was |
| MarketServices.MoneyRestored | src/api/market/services/market.services.ts:65-180 | debiting and then crediting the same amount leaves the money as it was |
| MarketServices.BuyThenSellRestores | src/api/market/services/market.services.ts:99-101 | with non-negative holdings, buying then selling the same quantity at the same price gives back both the money and the wallets |
| MarketServices.BuyCrypto | src/api/market/services/market.services.ts:65-123 | on a refusal the error and no change; otherwise the tables become the buy outcome and the updated row and money are returned |
| MarketServices.SellCrypto | src/api/market/services/market.services.ts:125-180 | on a refusal the error and no change; otherwise the tables become the sell outcome and the updated row and money are returned |
| MarketController.Insert | src/api/market/controller/market.controller.ts:384-393 | inserting keeps the same elements, with one more of the inserted coin |
| MarketController.InsertSorted | src/api/market/controller/market.controller.ts:384-393 | inserting into a sorted list keeps it sorted |
| MarketController.Precedes | src/api/market/controller/market.controller.ts:385-387 | the comparator's order: a larger 24h change first for gainers, a smaller one first for losers |
| MarketController.SortedBy | src/api/market/controller/market.controller.ts:385-387 | each coin may precede every later one |
| MarketController.SortBy | src/api/market/controller/market.controller.ts:385-387 | the sorted list is a permutation of the coins, ordered by 24h change |
| MarketController.Take | src/api/market/controller/market.controller.ts:388 | `slice(0, n)`: the first min(n, length) elements |
| MarketController.TopMovers | src/api/market/controller/market.controller.ts:384-393 | min(5, count) coins, sorted descending for gainers and ascending for losers, drawn from the coins without repeats |
| MarketController.TopMoversBeatTheRest | src/market/controller/market.controller.ts:147-148 | every coin listed ranks at or above every coin left out |
| MarketController.PrefixPrecedesSuffix | src/api/market/controller/market.controller.ts:384-393 | in a sorted list every coin before a cut may precede every coin after it |
| MarketController.ShortListIsAllMovers | src/market/controller/market.controller.ts:147-148 | with at most five coins, every coin is listed |
| MarketController.Caller | src/api/market/controller/market.controller.ts:697-707 | no token gives 401; a verification that throws gives 500; otherwise the token's user id, possibly absent |
| MarketController.RenameCheck | src/api/market/controller/market.controller.ts:711-738 | a falsy name gives 400, an unknown wishlist 404, and a caller who is not the owner 401; every refusal is 400, 401, 404 or 500; it succeeds iff the name is a truthy string and the caller owns the wishlist, and the name returned is not empty |
| MarketController.NonOwnerCannotRename | src/api/market/controller/market.controller.ts:727-732 | a wishlist of another user is never renamed |
| MarketController.UpdateName | src/api/market/controller/market.controller.ts:694-751 | a refusal changes nothing; otherwise exactly the named wishlist takes the new name |
| MarketController.Nullish | src/api/market/controller/market.controller.ts:773-774 | `null` and `undefined`, on which reading `update.wishlistId` throws |
| MarketController.Incomplete | src/api/market/controller/market.controller.ts:774 | the entry's `wishlistId` or `wishlistName` is falsy |
| MarketController.Owned | src/api/market/controller/market.controller.ts:790-792 | `includes(update.wishlistId)`: the id is a string among the caller's wishlist ids |
| MarketController.ScanStatus | src/api/market/controller/market.controller.ts:773-782 | no status iff every entry is neither null nor undefined and has a truthy id and name; any status is 400 or 500 |
| MarketController.OwnedIds | src/api/market/controller/market.controller.ts:784-788 | exactly the ids of the caller's wishlists, and every id when the caller has no id |
| MarketController.Renames | src/api/market/controller/market.controller.ts:802-806 | one rename per entry, in order |
| MarketController.BatchCheck | src/api/market/controller/market.controller.ts:766-808 | a body that is not an array gives 400; a bad entry gives its scan status; an entry naming a wishlist the caller does not own gives 403; on success every entry is a string id of a wishlist the caller owns, with a non-empty string name, and the renames are one per entry |
| MarketController.ForeignWishlistRefusesBatch | src/api/market/controller/market.controller.ts:790-799 | a batch naming another user's wishlist is refused with 403 |
| MarketController.ApplyRenames | src/api/market/controller/market.controller.ts:801-808 | applying the renames keeps the wishlist ids and their owners |
| MarketController.ApplyRenamesLastWriteWins | src/api/market/controller/market.controller.ts:801-808 | after the batch, a wishlist's name is that of the last entry naming it |
| MarketController.LastName | src/api/market/controller/market.controller.ts:801-808 | the name a wishlist ends with: the last rename aimed at it, or its current name when none is |
| MarketController.LastNameOfUntouched | src/api/market/controller/market.controller.ts:801-808 | a wishlist no entry names keeps its name |
| MarketController.LastNameIsLastEntry | src/api/market/controller/market.controller.ts:801-808 | an entry with no later entry for its wishlist gives that wishlist its name |
| MarketController.BatchLeavesOthersAlone | src/api/market/controller/market.controller.ts:784-808 | an accepted batch leaves another user's wishlists, and those no entry names, as they were |
| MarketController.BatchLastEntryWins | src/api/market/controller/market.controller.ts:801-808 | in an accepted batch, the wishlist of the last entry naming it takes that entry's name |
| MarketController.ApplyBatch | src/api/market/controller/market.controller.ts:801-808 | the wishlists become those after applying every rename in order |
| MarketController.RenameStep | src/api/market/controller/market.controller.ts:801-808 | the write after the first j renames applies rename j to the table they left, keeping the owner |
| MarketController.BatchRename | src/api/market/controller/market.controller.ts:754-816 | a refused batch changes nothing; an accepted one applies one rename per entry and the updated wishlists are returned |
| LegacyMarketController.Body | src/market/controller/market.controller.ts:42-46 | `plainToInstance` of the body: the token's user id, or `undefined` when there is none, the route's coin id and the body's `quantity` |
| LegacyMarketController.Delta | src/market/controller/market.controller.ts:59-102 | plus the quantity on a buy, minus it on a sell |
| LegacyMarketController.Trade | src/market/controller/market.controller.ts:30-113 | money is never touched; a token failure or an invalid body changes nothing; a valid quantity moves the wallet by plus or minus it through the clamped update; the trade succeeds iff the wallet exists and gives 400 iff it is missing; a sell of a non-number quantity empties the wallet |
| LegacyMarketController.NonPositiveQuantityRefused | src/market/controller/market.controller.ts:42-57 | a zero or negative quantity is refused by the DTO before the wallet is touched |
| LegacyMarketController.MissingUserIdRefused | src/market/controller/market.controller.ts:38-48 | a token without a user id is refused by the DTO |
| LegacyMarketController.BuyAddsExactly | src/market/controller/market.controller.ts:59 | a buy adds exactly the quantity to a non-negative holding |
| LegacyMarketController.SellClampsAtZero | src/market/controller/market.controller.ts:102 | selling more than the holding leaves 0, and selling at most the holding takes exactly the quantity |

## Left out

- Randomness: every `Math.random()` is an input draw in [0, 1). The model makes no probabilistic claim.
- `src/api/casino/services/casino.services.ts` is not part of this model. The live `SlotMachine`, `RouletteMachine` and `calculateRoulettePayout` come from it, so the slot's net profit, the wheel's result and the payout function are inputs of the casino handlers.
- `data/Items` is not part of this model. The `Cases` and `Guns` catalog is an input.
- Prisma, Redis, axios and CoinGecko, JWT signing and verification, Octokit and bcrypt are outside the model. Tables are the `Store.Db` fields, and Redis hashes are maps. Verification, the price, the GitHub call, the top-movers coin list, `parseFloat` and `parseInt` are inputs.
- Prisma's behaviour for an `undefined` filter value (the value is dropped, so the filter matches every row) is assumed where a token carries no id. It matters only for the batch rename's wishlist lookup.
- Concurrency is not modelled, and flows run in sequence. This covers the read-then-write in `updateUserWallet`, the two writes of `buyCrypto` and `sellCrypto` under `Promise.all`, the unawaited wallet update of the roulette handler, and the delete-then-credit order of `SellItem`. No lost-update property is claimed.
- Floating point is exact reals. No IEEE rounding appears, and NaN, infinities and non-number values appear only where a validator or a JavaScript comparison looks at them.
- MarketController.SortBy: the stability of `Array.prototype.sort` is not proved, although the insertion keeps equal coins in input order. Coins whose change is null or NaN (a comparator that gives NaN) are not modelled, and every change is a real.
- `haversineDistance` and the other routes of `src/api/localisation/controller/Localisation.controller.ts` are trigonometric and are left out. Only their DTO is modelled.
- HTTP response mechanics are left out. Statuses set after `res.json`, headers and message texts are not modelled, nor is a status set with no body sent (sell-all with no user row answers 500 that way, and the request is left hanging); the services' error strings are kept without the values they interpolate. Sell-all's missing `return` after the empty-equipment answer is modelled only by its effect: with no rows, it credits nothing and deletes nothing.
- Catch blocks that turn a thrown error into a 500 are modelled as a status only where the error decides the outcome. Those cases are a failing verification, a failing Prisma write of a non-string name, and a thrown lookup in `SellItem`.
- Wallet ids are assumed unique. `updateUserWallet` writes the row found by `findFirst`, modelled as the first matching row.
- LootboxController.SellItemRoute: JavaScript coercion of a non-number `itemId` or `quantity` is not modelled. A value that is not a whole number in the 32-bit `Int` range for `itemId`, or neither a number nor an infinity for `quantity`, is a refusal with no change. The `Int` width is Prisma's documented one; the schema is not part of this model.
- LootboxController.SellItemRoute: for a `-Infinity` quantity (a JSON `-1e999`) the model deletes every copy and leaves the user's money unchanged, answering `BalanceUnrepresentable`. The source deletes the copies too, then writes a balance of `-Infinity` or NaN, or fails in that write after the copies are gone; a real cannot hold that balance, so which of the two happens is not modelled.
- LegacyMarketController.Trade: a buy of quantity +Infinity is refused as `Unrepresentable`, with no change, because a real cannot hold the infinite holding the source would store. A sell of +Infinity is modelled exactly: the holding is clamped to 0.
- ClassValidator.ValidatorLength: strings are sequences of code points, so a lone surrogate, which a JavaScript string may hold and `isLength` counts as one, cannot be written and is not modelled.
- JsStrings.ToLower: lowers only the ASCII letters. JavaScript's `toLowerCase` lowers all of Unicode and can change the length, for example U+0130 becomes two code units.
- MainServices.GetUserWallet: the contract states which rows are returned, not their order. Prisma's `findMany` without `orderBy` promises no order; the model returns table order, and with unique wallet ids the crypto found in the result does not depend on that order.
- `src/middlewares/casinoMiddleware.ts` imports `../api/casino/dto/SlotMachine.dto`, which is not part of this model. `src/casino/dto/SlotMachine.dto.ts` is modelled in its place as `SlotMachineDto`.
- LootboxServices.SellItem: the message "You don't have the ${quantity} of this item" is kept without the quantity it interpolates.
- MarketServices.BuyOutcome: the message "You don't have enough money" is kept without the required and available amounts the source appends.
- MarketServices.SellOutcome: the message "You don't have enough ${cryptoId}" is kept as "You don't have enough crypto", without the crypto id and the required and available amounts.
- Files with no modelled logic: the unfinished `src/lootbox/controllers/lootbox.controller.ts`, the craps types, the rate limiter, bootstrapping and configuration, the auth controllers, the export controller, the database script `src/casino/services/casino.services.ts`, the casino stub controller and the type-only files.

## Findings

| source | as written | input that shows it | evidently intended | confidence | as-written member | corrected member |
|---|---|---|---|---|---|---|
| src/api/casino/dto/Roulette.dto.ts:28-34 | The per-type `ArrayMaxSize` and `IsOptional` decorators carry validation groups, but the handlers call `validate` with no groups. Every grouped decorator then applies to every bet, so at most one number passes, and the numbers are optional for every type. | `{ type: "Split", numbers: [1, 2] }` is rejected; `{ type: "Straight" }` is accepted | each bet type allows between one number and its own maximum of numbers in [0, 36], and only the colour bets may omit them | not executed | RouletteDto.ValidateAsWritten (RouletteDto.AsWrittenRejectsTwoNumberSplit, RouletteDto.AsWrittenAcceptsStraightWithoutNumbers) | RouletteDto.Validate (RouletteDto.ValidNumberBetCardinality, RouletteDto.IntendedSplitAndStraight), with the intended behaviour in RouletteDto.ValidateRouletteDto and CasinoController.IntendedBodyWithoutNumbers; CasinoController.PlayRoulette uses the as-written RouletteDto.ValidateBetChoice |
