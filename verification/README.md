# YieldForge, verified

A Dafny 4.11 model of YieldForge's deterministic core, with proofs of what it promises. Check it with
`dafny verify dfyconfig.toml`.

YieldForge turns holdings and quotes into figures a person acts on: shares in basis points, a split of new
money, a projection, a health score. All of it is integer arithmetic with two layers of rounding. Around the
figures sit a bounded result cache in front of a guarded text generator, a stream reader, a pt-BR number
printer and parser, and a chat store. The model covers these:

| file | system part |
|---|---|
| `Arithmetic.dfy`, `Ratio.dfy` | division, sums, half-up shares and amounts, weighted means |
| `Apportionment.dfy`, `ApportionmentLaws.dfy` | largest-remainder apportionment of 10000 basis points |
| `LruModel.dfy`, `LruLaws.dfy`, `MemCache.dfy` | the LRU cache with time-to-live: list model, laws over traces, the object itself |
| `Text.dfy`, `Gate.dfy`, `CachedChain.dfy` | trimming, the guard on generated text, the cache in front of it |
| `Split.dfy` | splitting a contribution by gap to target |
| `Projection.dfy` | income scenarios and net worth, month by month |
| `Stream.dfy` | the incremental event-stream reader |
| `Decimal.dfy`, `MinorUnits.dfy`, `PtBr.dfy` | decimal text on the Go side and on the TypeScript side |
| `Dashboard.dfy`, `Health.dfy` | portfolio figures and the health score computed from them |
| `Chat.dfy`, `ChatRuns.dfy` | the chat store, one turn, and whole runs |

Code that updates state is modelled as classes and loops. Each such method is proved equal to a specification
function, and the laws are lemmas about that function. Laws in figures say what the function computes without
naming it: by rounding bounds, one item at a time, and with every constant written out. Clock readings, the generator's answers, and the order
in which concurrent calls take their steps are arguments or free choices, so the laws hold for all of them.

## Findings

Each of these is a lemma below.

- The comment on ApplyBps (internal/platform/money/ratio.go:112) calls it the inverse of ShareBps. Share to
  amount to share is the identity on every share up to the whole exactly when the amount is at least 10000
  centavos (`ShareRoundTrip`).
- Two class shares add up to 10000, or to 10001 when both end in exactly half a basis point (`TwoShares`), as
  1 and 19999 centavos do (`SharesOfTie`). The two amounts of a split add up to the contribution, or to one
  centavo more under the matching condition (`SplitConserves`); with even targets and nothing invested yet that
  is every odd contribution (`EvenSplitGivesOneMore`).
- The target-mix fallback in Split is described as a net for gaps that round to exactly zero
  (internal/rebalancing/split.go:63-64). By the class values that Split is given, a class at or above its target
  is funded exactly when the fallback is taken (`FallbackFundsAboveTarget`). It is unreachable when these values
  are the whole patrimony (`SplitNeverOvershoots`). The engine rebuilds them from rounded shares, and then a gap
  can even be negative: for 59.99 in FIIs and 140.01 in fixed income, one centavo takes the fallback
  (`FallbackReached`). No larger contribution ever does, for any portfolio and profile (`TwoCentavosFindAGap`,
  `GroundedSplitFundsGaps`).
- By the values of the portfolio itself, the engine does fund classes that are at or above their target: FIIs of
  300040.00, already 10.00 above it, get 30.00 of another 100.00 (`FullClassFunded`). No size of contribution
  rules it out (`EveryContributionFundsFullClass`). With two centavos or more it happens exactly when the target
  lies above the rebuilt value and not above the held one, and this gap is large enough for a share
  (`FullClassExactly`). The class is then above its target by at most half a basis point of the patrimony less
  half a centavo (`FullClassBounded`), and up to 100.00 in all it does not happen (`SmallPortfoliosFundGaps`).
- Sector values add up to the FII total exactly when holdings in unlisted sectors are worth nothing on balance
  (`SectorsReconcile`). Ingestion only writes listed sectors, since ParseSector falls back to "other"
  (internal/marketdata/sector.go:44-52), and with those they always add up (`ListedSectorsReconcile`). A quote
  stored by other means keeps its sector name unchecked (internal/marketdata/postgres/postgres.go:94) and drops
  out of the breakdown.
- One of the two classes always holds half, so the concentration factor never exceeds 50, and no portfolio
  scores above 88, or 81 without a profile (`ConcentrationAtMostHalf`, `NoPerfectScore`); both are reached
  (`BestScore`).
- A text such as `1.234` means a different number on each side: web/lib/money.ts groups by dots, and
  DecimalToMinor takes the dot as the decimal mark when there is no comma (`DotReadTwice`). Only the TypeScript
  side trims a byte order mark. `LanguagesAgree` says exactly when the two agree, of every text with at most two
  decimals that the TypeScript side reads. Once there is a comma, DecimalToMinor accepts dots anywhere and
  ignores them (`DotsAreIgnored`).
- A cache key is shared with no other request exactly when neither the user nor the task holds the separator
  byte; JSON text never does (`KeyUnambiguous`).
- Chat messages do not always alternate. On a thread on which every question was answered, the stored order
  alternates exactly when no two turns on that thread overlap between question and answer
  (`AlternatesIffNoOverlap`, `OverlappingTurnsCollide`). What is shown is ordered by created_at, and a question
  carries a time that was read before its thread was resolved, so that is not enough (`EarlyReadingCollides`):
  the listing alternates exactly when the clock readings of no two turns on the thread interleave
  (`ListingAlternatesIffApart`). Turns on other threads never matter.

## Model

| member | source | states |
|---|---|---|
| Ratio.ShareBps | internal/platform/money/ratio.go:17-26 | the nearest basis point, halves away from zero, odd in the part, and 0 for a non-positive whole |
| Ratio.ApplyBps | internal/platform/money/ratio.go:115-126 | the nearest centavo, halves up, and 0 unless both arguments are positive |
| Ratio.AccrueSimpleInterest | internal/platform/money/ratio.go:33-45 | the nearest centavo of principal times rate times days over 3650000, and 0 unless all are positive |
| Ratio.TwoShares | internal/platform/money/ratio.go:17-26 | shares of two complementary parts add up to 10000, or to 10001 exactly on a double tie |
| Ratio.SharesOfTie | internal/platform/money/ratio.go:17-26 | two parts whose shares add up to 10001 |
| Ratio.TwoAmounts | internal/platform/money/ratio.go:115-126 | amounts of two complementary shares add up to the whole, or to one more exactly on a double tie |
| Ratio.SharesOfParts | internal/platform/money/ratio.go:17-26 | n shares of one whole are together off by at most n/2 basis points |
| Ratio.ValueRoundTrip | internal/platform/money/ratio.go:112-126 | value to share to value loses at most whole/20000 plus one half |
| Ratio.ShareRoundTrip | internal/platform/money/ratio.go:112-126 | share to value to share is the identity on the shares from 0 to 10000 if and only if the amount is at least 10000, and then on all shares |
| Ratio.WeightedMeanBps | internal/platform/money/ratio.go:96-110 | the accumulating loop over paired entries computes the specified mean |
| Ratio.DotAddsProducts | internal/platform/money/ratio.go:96-110 | the sum behind the mean: a pair counts with the product of value and weight, and lists of pairs add up |
| Ratio.MeanOfPairs | internal/platform/money/ratio.go:92-110 | the mean is that sum over 10000, the nearest integer with halves up, and 0 unless the sum is positive; entries without a partner do not count |
| Ratio.MeanBetween | internal/platform/money/ratio.go:92-110 | with weights adding up to 10000 the mean lies between any bounds on the values |
| Ratio.MeanMonotone | internal/platform/money/ratio.go:92-110 | the mean is monotone in every value |
| Apportionment.SliceStable | internal/platform/money/ratio.go:84-85 | the in-place sort yields the stable descending order |
| Apportionment.StableDesc | internal/platform/money/ratio.go:84-85 | the order has exactly the given entries |
| Apportionment.SinkInto | internal/platform/money/ratio.go:84-85 | one in-place step inserts an entry behind all that are not smaller |
| ApportionmentLaws.OrderEntries | internal/platform/money/ratio.go:69-85 | the order is strict: larger remainder first, lower index on ties, every index once |
| Apportionment.FloorShares | internal/platform/money/ratio.go:69-81 | the middle loop leaves floors, remainders and their running total, with every product inside int64 |
| Apportionment.BumpLargest | internal/platform/money/ratio.go:83-88 | the closing loop gives one basis point to each of the first leftover entries |
| Apportionment.AllocateBps | internal/platform/money/ratio.go:52-90 | the whole function, loops and in-place sort, computes the specified shares under the int64 limits it relies on |
| ApportionmentLaws.LeftoverBounds | internal/platform/money/ratio.go:83-88 | the leftover is non-negative and below the number of weights, and unless it is 0 there are more positive remainders than it counts |
| ApportionmentLaws.SharesExact | internal/platform/money/ratio.go:47-51 | the shares add up to exactly 10000, or to 0 when no weight is positive |
| ApportionmentLaws.SharesWithinQuota | internal/platform/money/ratio.go:47-51 | each share is the floor or the ceiling of its exact quota |
| ApportionmentLaws.SharesInRange | internal/platform/money/ratio.go:47-51 | shares are within 0..10000, and non-positive weights get 0 |
| ApportionmentLaws.WinnersFirst | internal/platform/money/ratio.go:49-51 | whoever precedes a winner, by remainder and then by index, wins too |
| ApportionmentLaws.SharesOrdered | internal/platform/money/ratio.go:47-51 | a larger weight never gets less; equal weights differ by at most 1, in favour of the lower index |
| ApportionmentLaws.SharesScaleFree | internal/platform/money/ratio.go:47-51 | scaling all weights by a positive factor changes nothing |
| ApportionmentLaws.SharesIdempotent | internal/platform/money/ratio.go:47-51 | allocating by the allocation's own shares returns them |
| ApportionmentLaws.SharesOptimal | internal/platform/money/ratio.go:47-90 | no other integers adding up to 10000 are closer in total to the exact quotas |
| LruModel.RunShape | internal/insight/factory/memcache.go:45-85 | after every trace the keys are distinct and the length is within the capacity |
| LruModel.StackInclusion | internal/insight/factory/memcache.go:45-85 | on one trace the smaller cache holds a recency-ordered subsequence of the larger one, values and expiries included, and lacks at most the difference in capacity |
| LruModel.HitInclusion | internal/insight/factory/memcache.go:45-60 | every hit of the smaller cache is the same hit in the larger one |
| LruLaws.ResidentIsLedger | internal/insight/factory/memcache.go:45-85 | a resident entry is the newest Set of its key with its own expiry |
| LruLaws.AnswerExact | internal/insight/factory/memcache.go:45-60 | Get answers if and only if its key is resident and the unbounded map answers, and then the same |
| LruLaws.HitIsNewestSet | internal/insight/factory/memcache.go:45-80 | a hit returns the value of the newest Set call of its key, before that call's time plus the time-to-live |
| LruLaws.MapInFigures | internal/insight/factory/memcache.go:45-80 | the unbounded map answers with the newest Set of the key exactly before its time plus the time-to-live, and never for a key that was not set |
| LruLaws.SetIsAnswered | internal/insight/factory/memcache.go:45-80 | what was just set is answered until it expires, by every cache of positive size and by no other |
| LruLaws.UsePutsInFront | internal/insight/factory/memcache.go:58-74 | a hit or a Set makes its key the most recently used |
| LruLaws.RunByLastUse | internal/insight/factory/memcache.go:58-80 | after every trace the list runs from the key whose last hit or Set is newest to the one whose is oldest |
| LruLaws.LeavesExactly | internal/insight/factory/memcache.go:45-80 | an entry leaves if and only if a Get of its key finds it expired, or a Set of a new key finds the cache full and this key the least recently used of all |
| LruLaws.RecentlyUsedStays | internal/insight/factory/memcache.go:62-80 | after a hit or a Set a key answers like the unbounded map as long as it is left alone and fewer than size other keys are hit or set |
| LruLaws.LargeCacheIsTheMap | internal/insight/factory/memcache.go:45-80 | with room for every key that is set and a clock that never goes back, the cache is the unbounded map |
| MemCache.MemCache.constructor | internal/insight/factory/memcache.go:35-43 | a fresh cache is empty |
| MemCache.MemCache.Get | internal/insight/factory/memcache.go:45-60 | answers and updates the list as specified, and keeps list and map in bijection |
| MemCache.MemCache.Set | internal/insight/factory/memcache.go:62-80 | updates the list as specified, in place for a key that is there, and keeps list and map in bijection |
| MemCache.MemCache.RemoveElement | internal/insight/factory/memcache.go:82-85 | takes one entry out of both list and map |
| Gate.Generate | internal/insight/gate.go:36-56 | passes an error of the provider on, lets the whole result through with the fixed disclaimer if every insight is clean, and otherwise reports the first violation by its kind |
| Gate.OrdersAreRejected | internal/insight/advice.go:71-76 | an order in the category, title, detail or explanation of any insight rejects the whole result, whatever surrounds it |
| Gate.OneInsight | internal/insight/gate.go:36-56 | one insight: a blank explanation is missing, else an order in its four lines is advice, else only the disclaimer changes |
| Gate.FirstRejectionCounts | internal/insight/gate.go:42-56 | of two lists of insights in a row the first rejection decides, and without one all pass |
| Gate.GateIsClosed | internal/insight/gate.go:36-56 | the answer is determined, and whatever gets through is clean |
| CachedChain.KeyUnambiguous | internal/insight/factory/cached.go:44-53 | a request shares its key with no other if and only if neither its user nor its task holds the separator |
| CachedChain.Cached.Generate | internal/insight/factory/cached.go:24-39 | one call: a hit answers from the cache, a miss stores the gated answer unless it is an error |
| CachedChain.CallIsAPath | internal/insight/factory/cached.go:24-39 | what Generate does in one piece is one lookup and at most one store of the interleaved steps |
| CachedChain.EveryStateIsSafe | internal/insight/factory/cached.go:24-39 | in every interleaving, each cached entry was let through by the gate and stored under its key, time-to-live before its expiry |
| CachedChain.ReturnedResultsAreSafe | internal/insight/factory/cached.go:15-39 | whatever is returned without error is clean; a hit was fresh less than the time-to-live ago for the same key, and for the same request when its user and task hold no separator |
| Split.ClassWeights | internal/rebalancing/split.go:50-69 | the loops leave the positive gaps, or the target mix when there is none |
| Split.Split | internal/rebalancing/split.go:49-84 | the method returns the funded classes in order, with their shares and amounts |
| Split.SplitInFigures | internal/rebalancing/split.go:30-84 | the whole list in numbers: targets of 30, 50 or 70 percent of the patrimony after the contribution, the gaps to them, the share of the gaps or of the targets, and the amounts, each to the nearest |
| Split.EmptySplitByTargets | internal/rebalancing/split.go:30-84 | into an empty portfolio 10k centavos go as 3k to 7k, 7k to 3k or 5k to 5k, by profile |
| Split.SplitConserves | internal/rebalancing/split.go:71-83 | for every allocation and profile the shares add up to 10000 and the amounts to the contribution, or to one more exactly on a double tie |
| Split.EvenSplitGivesOneMore | internal/rebalancing/split.go:71-83 | into an empty portfolio of a moderate or unset profile the amounts are one centavo more than the contribution if and only if it is odd |
| Split.FallbackNeedsExcess | internal/rebalancing/split.go:63-69 | the fallback needs class values that exceed the total by the contribution or more |
| Split.SplitNeverOvershoots | internal/rebalancing/split.go:44-83 | a class at or above target gets nothing; a funded one ends below target plus contribution/10000 plus half a centavo |
| Split.SplitBounded | internal/rebalancing/split.go:49-83 | the same bound, plus whatever the class values exceed the total by |
| Split.AllocationFromFacts | internal/rebalancing/facts.go:37-46 | the loop rebuilds every class value from its rounded share |
| Split.RebuiltClose | internal/rebalancing/facts.go:35-46 | each rebuilt value is within total/20000 plus one half of the dashboard's |
| Split.GroundedSplitBounded | internal/rebalancing/facts.go:25-46 | through facts and split together, a funded class ends below target plus contribution/10000, one and a half basis points of the total, and 2.5 centavos |
| Split.FallbackReached | internal/rebalancing/split.go:63-69 | a portfolio for which one centavo finds no class below its target |
| Split.FallbackFundsAboveTarget | internal/rebalancing/split.go:63-83 | a class at or above its target is funded if and only if the fallback is taken |
| Split.TwoCentavosFindAGap | internal/rebalancing/facts.go:25-46 | through facts and split together, two centavos or more find a class below its target, whatever the portfolio and profile |
| Split.GroundedSplitFundsGaps | internal/rebalancing/split.go:44-83 | by the values it rebuilds, the engine funds only classes below target for every portfolio and profile, if and only if the contribution is at least two centavos |
| Split.SharesOfPair | internal/platform/money/ratio.go:47-90 | of two weights the first gets its nearest share, halves up, and the second the rest |
| Split.FundedExactly | internal/rebalancing/split.go:50-83 | a class is funded if and only if the fallback is taken, or its gap is positive and half a basis point of the gaps or more, for the second class more |
| Split.FullClassExactly | internal/rebalancing/facts.go:25-46 | from two centavos on, a class held at or above its target is funded if and only if the target lies above its rebuilt value and the gap is large enough for a share |
| Split.FullClassBounded | internal/rebalancing/facts.go:25-46 | from two centavos on, no funded class is held above its target by more than half a basis point of the total less half a centavo |
| Split.SmallPortfoliosFundGaps | internal/rebalancing/facts.go:25-46 | up to a total of 10000 and from two centavos on, only classes held below target are funded |
| Split.EveryContributionFundsFullClass | internal/rebalancing/facts.go:25-46 | for every contribution there is a portfolio with a class held at or above its target that is funded |
| Split.FullClassFunded | internal/rebalancing/facts.go:25-46 | a portfolio whose FIIs are 1000 centavos above their target and get 3000 of a contribution of 10000 |
| Split.AssignIllustrativeShares | internal/rebalancing/engine.go:234-247 | writes the even division in place, and nothing without candidates or share |
| Split.EvenSharesConserve | internal/rebalancing/engine.go:230-247 | exactly the area's share is given out, in parts that never grow and differ by at most 1 |
| Projection.ProjectNetWorth | internal/projection/compute.go:72-87 | the month loop returns the yearly series of the monthly recurrence |
| Projection.Compute | internal/projection/compute.go:24-67 | the scenario loop returns the specified income and series, pessimistic first, then base, then optimistic |
| Projection.YieldOfSeries | internal/projection/compute.go:24-73 | each series compounds at a twelfth, in whole basis points, of the income on the current value to the nearest basis point, moved by -200, 0 or 200 and not below zero |
| Projection.IncomeInFigures | internal/projection/compute.go:25-49 | each annual income is the holdings' own, moved by 2% of the current value and not below zero, and each monthly income its nearest twelfth |
| Projection.MonthInFigures | internal/projection/compute.go:76-82 | one month adds the yield on the value so far to the nearest centavo, and the contribution |
| Projection.MonthlyFromAnnual | internal/projection/compute.go:90-95 | the nearest twelfth, halves up, and 0 for non-positive income |
| Projection.RoundingError | internal/projection/compute.go:69-87 | after m months the value is within half of 1 + x + ... + x^(m-1) of exact compounding, x being one plus the monthly rate |
| Projection.PowerSumAddsPowers | internal/projection/compute.go:69-87 | the sum in that bound is 1 + x + ... + x^(m-1), one power more for each month |
| Projection.ExactClosedForm | internal/projection/compute.go:69-87 | exact compounding is start times x^m plus contribution times the same sum |
| Projection.SeriesNeverFalls | internal/projection/compute.go:72-87 | the series starts at the current value, has horizon plus one points, and without withdrawals never falls |
| Projection.ValueMonotone | internal/projection/compute.go:72-87 | the value is monotone in start, rate and contribution, for all integers |
| Projection.ScenariosOrdered | internal/projection/compute.go:24-67 | pessimistic is at most base is at most optimistic, in income and in every year |
| Projection.SeriesPrefixAndTail | internal/projection/compute.go:72-87 | a shorter horizon is a prefix, and restarting from a year's value gives the rest |
| Projection.BaseIncomeReconciles | internal/projection/compute.go:20-36 | base income is the holdings' own, and the spread moves it by the same amount both ways down to zero |
| Stream.StreamEvents | web/lib/stream.ts:35-53 | for every way of cutting the text into chunks, the reader yields what cutting the whole text once yields, and holds its unterminated tail |
| Stream.TakeFrames | web/lib/stream.ts:42-52 | the inner loop yields the buffer's complete frames and keeps the rest |
| Stream.EventsAppend | web/lib/stream.ts:40-52 | text that arrives later only continues from the tail |
| Stream.TailHasNoSeparator | web/lib/stream.ts:42-43 | nothing that could still be cut is ever held back |
| Stream.PayloadsComeBack | web/lib/stream.ts:44-51 | payloads encoded as data lines come back unchanged and in order, but for the empty ones, whatever unterminated text follows |
| Stream.LineValues | web/lib/stream.ts:46-50 | a line has a value exactly when it starts with the five characters of the field name: the rest, without one leading blank |
| Stream.OtherLinesAreIgnored | web/lib/stream.ts:46-50 | a line of another field, anywhere in a frame, changes nothing in what the frame yields |
| Stream.DataLinesAreJoined | web/lib/stream.ts:46-50 | data lines, with a blank behind the colon or without, yield their values joined by line breaks |
| MinorUnits.DecimalToMinor | internal/platform/money/money.go:30-87 | returns the half-up value with its sign if and only if the text is in the grammar and the magnitude fits in int64 |
| MinorUnits.AcceptedExactly | internal/platform/money/money.go:34-62 | the grammar in terms of the trimmed text: some digit, digits and marks behind at most one sign, one comma at most, or else one dot |
| MinorUnits.ReadsPlainDecimal | internal/platform/money/money.go:30-87 | white space, a sign or none, and digits with a comma, a dot or no mark: the number in minor units if it is within 9223372036854775807, and an error otherwise |
| MinorUnits.ReadsNothingElse | internal/platform/money/money.go:30-62 | a negative scale has its own error, and every text outside the grammar is an error |
| MinorUnits.Round | internal/platform/money/money.go:64-86 | rounding, padding, range check and carry guard are tight |
| MinorUnits.IsDigits | internal/platform/money/money.go:91-98 | true exactly for ASCII digits, and for the empty text |
| MinorUnits.ReadsNormal | internal/platform/money/money.go:46-62 | stripping and cutting accepts exactly the grammar and reads off its digits and decimals |
| MinorUnits.DotsAreIgnored | internal/platform/money/money.go:46-50 | with a comma in it, a text is accepted and reads the same with and without its dots |
| Decimal.FirstDroppedDigit | internal/platform/money/money.go:64-68 | the first dropped digit alone decides the half-up rounding |
| Decimal.HalfUpNearest | internal/platform/money/money.go:64-86 | the rounded number is within one half of the exact one, halves up, and exact where no digit is dropped |
| PtBr.GroupedText | web/lib/money.ts:68-74 | a printed whole part satisfies the grouping grammar and denotes its number |
| PtBr.NoLeadingZero | web/lib/money.ts:68-74 | a printed whole part starts with 0 only for zero |
| PtBr.InputByPlace | web/lib/money.ts:68-83 | an editable amount ends in a comma and two digits, with a minus exactly below zero |
| PtBr.ShareByPlace | web/lib/money.ts:25-34 | a compact percentage has a fraction exactly when it is not zero, of one or two digits without a zero at the end |
| PtBr.GroupedByPlace | web/lib/money.ts:40 | the grouping part of the regular expression: counted from the right, every fourth place is a dot and the others are digits |
| PtBr.NumericExactly | web/lib/money.ts:40 | the regular expression accepts exactly a minus or none, a whole part, and a comma with digits or none |
| PtBr.ParseInFigures | web/lib/money.ts:42-59 | white space around such a text changes nothing, its number is a hundred times the decimal to the nearest integer, halves up, and any other text is not read |
| PtBr.InputStringRoundTrip | web/lib/money.ts:38-83 | every integer survives printing and parsing, and its text satisfies the regular expression |
| PtBr.ShareStringRoundTrip | web/lib/money.ts:25-59 | so it does through the compact percentage without its sign |
| PtBr.GoReadsInputString | internal/platform/money/money.go:30-87 | DecimalToMinor reads the printed text of n back as n, exactly when the magnitude of n fits in int64 |
| PtBr.LanguagesAgree | internal/platform/money/money.go:20-50 | of every text with at most two decimals that the TypeScript side reads, both read the same number if and only if its magnitude fits in int64, both trim alike, and there is a comma, or no dot, or one dot in a zero |
| PtBr.DotReadTwice | web/lib/money.ts:38-53 | one text that is 1234 units on one side and 1.23 on the other |
| Text.TrimsDiffer | internal/platform/money/money.go:34 | where the two languages trim differently, what Go leaves is longer and starts or ends with a byte order mark |
| Text.SpaceCharacters | internal/platform/money/money.go:34 | the code points that Go trims and those that JavaScript trims |
| Text.TrimLeavesMiddle | internal/platform/money/money.go:34 | white space on both sides of a text goes, and nothing else |
| Dashboard.DaysBetween | internal/dashboard/compute.go:101-107 | whole days, and 0 for a time that has not come |
| Dashboard.FiiLoop | internal/dashboard/compute.go:33-51 | running totals, stale tickers and the sector map of the first loop |
| Dashboard.Sectors | internal/dashboard/compute.go:90-98 | the sectors that are held, in the fixed order |
| Dashboard.Compute | internal/dashboard/compute.go:23-76 | all figures as specified |
| Dashboard.OneFii | internal/dashboard/compute.go:33-51 | one FII: its quantity at the average price, at the price and at the last dividend of its quote; without a quote at cost, without income, and stale |
| Dashboard.OneSector | internal/dashboard/compute.go:40-51 | one FII counts with its whole value in the sector of its quote, or in Other without one |
| Dashboard.OneFixedIncome | internal/dashboard/compute.go:53-59 | one fixed income: the amount invested, with simple interest to the nearest centavo for the whole days since, on a year of 365 days |
| Dashboard.GrowthInFigures | internal/dashboard/compute.go:61-71 | growth is current less invested, and its share is of the amount invested |
| Dashboard.ClassesInFigures | internal/dashboard/compute.go:79-86 | four slices in order: the first two are worth what their holdings alone are worth, with their shares of the total, and the others nothing |
| Dashboard.SectorsInFigures | internal/dashboard/compute.go:90-98 | the breakdown lists exactly the six sectors that are held, once each in the fixed order, with the value of their holdings and its share of the FII total |
| Dashboard.StaleAdd | internal/dashboard/compute.go:33-51 | the stale tickers of two portfolios together are those of the first and then those of the second |
| Dashboard.SectorsAdd | internal/dashboard/compute.go:40-51 | the sectors held in two portfolios together are those held in either |
| Dashboard.ClassesReconcile | internal/dashboard/compute.go:61-86 | the class values add up to the current total |
| Dashboard.SectorsReconcile | internal/dashboard/compute.go:90-98 | the sector values add up to the FII total if and only if unlisted sectors hold nothing on balance |
| Dashboard.ListedSectorsReconcile | internal/marketdata/sector.go:42-52 | with quotes in listed sectors only the sector values always add up to the FII total |
| Dashboard.ClassSharesReconcile | internal/dashboard/compute.go:79-86 | with a positive total the two class shares add up to 10000, or to 10001 exactly on a double tie |
| Dashboard.SectorSharesReconcile | internal/dashboard/compute.go:90-98 | the shares of a reconciled sector breakdown add up to 10000 within 3 |
| Dashboard.OrderDoesNotMatter | internal/dashboard/compute.go:18-22 | rearranging the holdings changes no figure |
| Dashboard.PortfoliosAdd | internal/dashboard/compute.go:33-62 | the figures of two portfolios together are the sums of their figures |
| Health.Compute | internal/health/compute.go:40-76 | the loops return the specified score and factors, the empty portfolio included |
| Health.DiversificationInFigures | internal/health/compute.go:79-88 | 12 points a holding up to 60, and 13 a sector up to 40 |
| Health.ConcentrationInFigures | internal/health/compute.go:91-98 | one point is lost for each whole percent of the larger of the largest class and sector shares |
| Health.LiquidityInFigures | internal/health/compute.go:101-108 | the liquid share of the current value in whole percent |
| Health.GoalInFigures | internal/health/compute.go:112-121 | one point is lost for each whole percent between the FII share and its target: 3000, 5000 or 7000, less half of what a known rate is above 1000, at most 1000 |
| Health.RiskInFigures | internal/health/compute.go:125-136 | one point is lost for each whole percent of the FII share above 3000, 5000 or 7000 plus half of the largest share above 5000 |
| Health.FactorsShown | internal/health/compute.go:40-76 | which factors are shown, in which order, and with which weights: 2500, 2500, 1500, 2000, 1500, or 3846, 3846, 2308 without a profile |
| Health.ScoreInFigures | internal/health/compute.go:54-66 | the score is the mean of the factor scores by these weights, to the nearest point, halves up |
| Health.WeightsSum | internal/health/compute.go:54-76 | the weights shown always add up to 10000 |
| Health.ScoreBetweenFactors | internal/health/compute.go:61-66 | the score lies between the least and the greatest factor score |
| Health.ScoreMonotone | internal/health/compute.go:79-136 | more holdings, sectors or liquid value never lower the score, and more concentration never raises it |
| Health.GoalByDistance | internal/health/compute.go:112-121 | the nearer the FII share to its target the better, and 100 exactly within one percentage point |
| Health.TargetTilts | internal/health/compute.go:138-147 | a higher policy rate never raises the target, which moves by at most ten percentage points and only above the neutral band |
| Health.DashboardInputs | internal/health/service.go:107-127 | the loops extract class values, counts and the largest shares |
| Health.BuiltInFigures | internal/health/service.go:57-127 | the inputs are the dashboard's total and class values, its largest class and sector shares, and the numbers of positions and sectors |
| Health.LiquidValue | internal/health/service.go:131-144 | the loop computes the FIIs plus the daily share of the fixed income |
| Health.LiquidInFigures | internal/health/service.go:131-144 | the FIIs, and of the fixed income the share that holdings with daily liquidity have of the amount invested, however they are mixed |
| Health.LiquidWithinCurrent | internal/health/service.go:129-144 | for a real portfolio the liquid value never exceeds the current value |
| Health.ConcentrationAtMostHalf | internal/health/compute.go:91-98 | the concentration factor of a real portfolio never exceeds 50 |
| Health.NoPerfectScore | internal/health/compute.go:40-67 | no portfolio scores above 88, or above 81 without a profile |
| Health.BestScore | internal/health/compute.go:40-67 | a portfolio that scores 88, and 81 without a profile |
| Chat.Repository.CreateThread | internal/chat/postgres/postgres.go:35-42 | adds one empty thread under a new id |
| Chat.Repository.GetThreadByID | internal/chat/postgres/postgres.go:45-57 | finds a thread if and only if it exists and is the caller's |
| Chat.Repository.ListMessages | internal/chat/postgres/postgres.go:82-110 | an owned thread's messages, each once and in the order of their times, and none otherwise |
| Chat.Repository.InsertMessage | internal/chat/postgres/postgres.go:114-123 | adds one message behind the others, and fails when the thread is gone |
| Chat.Repository.TouchThread | internal/chat/postgres/postgres.go:124-126 | moves the thread's time, and does nothing when the thread is gone |
| Chat.Repository.AppendMessage | internal/chat/postgres/postgres.go:114-128 | the insert and then the touch, or neither when the thread is gone |
| Chat.Repository.DeleteThread | internal/chat/postgres/postgres.go:131-137 | removes an owned thread with its messages, and otherwise nothing |
| Chat.Repository.ClearThreads | internal/chat/postgres/postgres.go:140-145 | removes all of the user's threads and no others |
| Chat.Repository.EnforceCap | internal/chat/postgres/postgres.go:148-157 | keeps the most recently updated threads of the user, as many as the cap allows, and all of the others' |
| Chat.ResolveThread | internal/chat/engine.go:107-119 | an owned thread, a new one under the cap, or not found and nothing changed |
| Chat.Send | internal/chat/engine.go:49-102 | exactly which reply each outcome gives: failed if and only if the thread is gone or grounding fails, answered if and only if the result is there and explained; a rejection by the gate is a safe reply and anything else an outage; and exactly what the turn writes |
| Chat.OwnedTurnWrites | internal/chat/engine.go:49-102 | a turn on an owned thread adds the question at the first clock reading and, when answered, the reply at the second, with the trimmed detail or else explanation as content, and changes nothing else |
| Chat.NewTurnWrites | internal/chat/engine.go:107-119 | a turn without a thread opens one under its title, caps the user's threads at 50, and writes to it unless it is gone |
| Chat.ContentOfReply | internal/chat/engine.go:190-205 | an insight explains exactly when its explanation is not blank, and a detail that is not blank is the content |
| Chat.TitleOfText | internal/chat/engine.go:207-213 | a title is the trimmed text, cut to 60 characters and trimmed again |
| Chat.ExplainedIsUsable | internal/chat/engine.go:190-205 | an explained insight gives a message with explanation and content |
| Chat.TurnsStayInStep | internal/chat/engine.go:49-119 | a turn alone keeps every thread alternating and in time order, and its own thread survives the cap |
| Chat.ListedAsWritten | internal/chat/postgres/postgres.go:82-110 | messages written at rising times are listed in the order in which they were written |
| ChatRuns.ThreadAlternates | internal/chat/engine.go:49-119 | in every interleaving, a thread alternates as long as no two turns on it overlap between question and end, whatever other threads do |
| ChatRuns.AlternatesIffNoOverlap | internal/chat/engine.go:49-119 | with every question answered, a thread alternates if and only if no two turns on it ever overlapped between question and answer |
| ChatRuns.ListedInTurn | internal/chat/postgres/postgres.go:82-110 | as long as no two turns on a thread overlap from first clock reading to end, it is listed as written, and alternates |
| ChatRuns.ListingAlternatesIffApart | internal/chat/postgres/postgres.go:82-110 | with every question answered, the listing of a thread alternates if and only if the clock readings of no two turns on it interleave |
| ChatRuns.TurnIsAPath | internal/chat/engine.go:49-119 | what Send does in one piece is a path of these steps |
| ChatRuns.EveryStateIsSafe | internal/chat/postgres/postgres.go:112-157 | in every interleaving, messages only enter their caller's threads, assistant messages are explained, and a user has at most 50 threads plus those created since the last cap |
| ChatRuns.OverlappingTurnsCollide | internal/chat/engine.go:49-102 | a run, cap included, in which two turns ask before either is answered and leave two assistant messages in a row |
| ChatRuns.EarlyReadingCollides | internal/chat/engine.go:55-96 | a run whose turns do not overlap in the store and whose every listing has two assistant messages in a row |

## Left out

- int64 wrap-around outside AllocateBps and DecimalToMinor: centavos and basis points are mathematical integers, as the source's comments bound them far below the limit.
- IEEE doubles in web/lib/money.ts: `Number(...) * 100` is an exact rational, so inputs whose doubles round differently are not covered; agreement across languages is stated for at most two decimals.
- LanguagesAgree: does not cover more than two decimals, because there the rounding of doubles decides.
- The digit grouping of toLocaleString is modelled after the pt-BR locale data, not derived from it.
- UTF-8 decoding and carriage returns in the stream reader; it starts from decoded characters, and the code treats no carriage return specially.
- SHA-256 and JSON encoding: facts are their JSON text, in which no zero byte occurs, and the hash is free of collisions.
- Time stamps that PostgreSQL rounds to the same microsecond: the laws about listings take every reading of the clock to be later than the one before.
- The order-signature patterns of internal/insight/advice.go are a parameter of the gate; intent classification and grounding in the chat are a flag that says whether facts were found.
- Explanation and note strings of the health score and the projections.
- buildAreas and buildCandidates of internal/rebalancing/engine.go: joins and a filter over generated text, which would add only easy members.
- container/list and sort.SliceStable are library code: the list is a sequence of entry objects, and the sort an insertion sort with the same result.
- Saturation of time differences, cancelled contexts, database errors, SQL isolation, HTTP, adapters, configuration and UI.
- priorContext, turnFacts and ListThreads: read-only and without a law of their own.
