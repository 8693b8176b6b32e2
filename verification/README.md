# AuditSphere verification model

A Dafny model of the parts of AuditSphere whose correctness takes an argument, and proofs about it.
`dafny verify dfyconfig.toml` checks everything.

**The QR Code encoder** (`apps/web/lib/qr.ts`, an implementation of ISO/IEC 18004:2015) is modelled stage by stage, with
the arrays and loops of the source, each proved against a specification:

* `Bits`, `Gf256`, `Polynomials`, `ReedSolomon`: bytes, the field of 256 elements, polynomials over it, and the in-place
  generator and remainder loops. `MinimumDistance` proves from the field laws that 2 generates the field and that blocks
  with different data differ in more places than they have error correction bytes.
* `Versions`, `BitStream`, `Interleaving`: version choice, bit packing, blocks and their interleaving.
* `Cells`, `FunctionPatterns`, `Zigzag`, `Colours`, `Symbol`: where the patterns of all forty versions lie, how many
  modules they leave, in which order the others are filled, and the matrix that is drawn step by step.
* `CheckCodes`: the check bits of the format and version words are remainders of a polynomial division.
* `Runs`, `PenaltyRules`, `PenaltyLaws`: what the penalty rules mean on whole lines, the one-pass scoring that computes
  it, and what the score depends on.
* `QrCode`, `ErrorCorrection`: mask selection, a reader for finished symbols, and the main results. Encoding any bytes
  that fit and reading the symbol gives the bytes back, and no smaller symbol of the level could (`QrCode.EncodeQr`);
  damage to at most half as many codewords of each block as it has for correction has at most one explanation
  (`ErrorCorrection.RepairIsUnique`).
* `SymbolShape`: what a scanner looks for in a finished symbol: finder, alignment and timing patterns, format and version.

**The services** are modelled as steps on a store, with properties of all runs of those steps:

* `Sessions`, `Lockout` (`auth.service.ts`): refresh-token families and the failed-login lockout.
* `AuditRecords`, `UniverseIndex`, `RecordLinks`, `SearchGraph`, `AuditSearch`: reading the audit universe page by page
  within limits, linking its records, walking the links, and the three together.
* `Ageing`, `Reminders`: due dates, reminders and escalation over any sequence of job runs.
* `Workflows`, `Findings`, `Engagements`: the transition tables, the service that enforces them, and the lives of
  findings and of engagements with their findings.
* `Library`: versioned items of many tenants.

In each of these modules the methods change the state as the source does, and are proved equal to a step function
(`Next`); lemmas about `Run`, the fold of the steps, then hold for every sequence of calls.

How the source's terms are rendered:

* Bytes are numbers below 256, and exclusive or is defined digit by digit. Where the source joins fields by a bitwise or,
  the model adds; that the fields do not overlap, and that the two then agree, is proved (`Colours.FormatBitsBelow`,
  `CheckCodes.JoinFields`).
* `modules[y][x]` is a two-dimensional array. The loops over rows and over columns of the penalty score share one method
  for a line. The ceiling of a quotient of two integers is exact integer division.
* A database row is a value in a sequence, its index the id; an update of many rows is one function on the sequence.
  A random token or a fresh identifier is the next index. Each service call is one step.
* The clock, permissions, what guards count elsewhere, password comparison and read failures are arguments. Statuses,
  actions and guard names are enumerations with a case for unknown actions. Users, tenants and codes are numbers, times
  are integers in milliseconds, and a text is blank if it holds nothing but the white space that `trim` takes off.
* The state that `build` keeps in local variables is a value that its loops pass on. Findings and document requests run
  through one reminder loop; a flag says which of them keep an escalation level.

Three statements one might expect are false of the code, and are proved so with the exact condition: logging out does not
end a session when an already rotated token is presented (`Sessions.LogoutEndsFamily`); a global library item can have
several open versions, one per tenant (`Library.SecondOpenChild`); and a closed engagement need not have a final status
(`Engagements.FinalUnlessReopened`). The interval of reminders after the due date is seven times 24 hours at least, and
up to eight calendar days with one run a day (`Reminders.GapOfEightDays`).

## Model

| member | source | states |
|---|---|---|
| QrCode.EncodeQr | apps/web/lib/qr.ts:101-133 | Reading the finished symbol (size, format, mask, zigzag, blocks, bit stream) gives back the input bytes; no smaller symbol of the level, whatever its modules, reads as these bytes; the error means that there are more bytes than the largest version holds and that no symbol of the level reads as them; the codewords are Reed-Solomon blocks and the mask is the best one |
| QrCode.DecodedFits | apps/web/lib/qr.ts:101-111 | Whatever its modules are, a symbol reads as bytes only if they fit its version and level |
| BitStream.ParsedFits | apps/web/lib/qr.ts:104-131 | Only bytes that fit can be read from the data codewords of a version and level |
| Versions.LargestData | apps/web/lib/qr.ts:104-111 | Some version holds n bytes exactly if version 40 does: up to 2953, 2331, 1663 and 1273 bytes at the four levels |
| QrCode.DecodeTrial | apps/web/lib/qr.ts:101-379 | A symbol under any of the eight masks, not only the chosen one, decodes to the bytes that its codewords carry |
| SymbolShape.FinderShows | apps/web/lib/qr.ts:172-181 | In every symbol each finder pattern is three nested squares with a light separator |
| SymbolShape.FinderRatios | apps/web/lib/qr.ts:172-181 | Rows and columns through the core of a finder pattern read 1:1:3:1:1 in a light surround |
| SymbolShape.AlignmentShows | apps/web/lib/qr.ts:182-185 | Each alignment pattern is a dark square around a light one around a dark module |
| SymbolShape.TimingShows | apps/web/lib/qr.ts:215-219 | The timing patterns alternate between the finder patterns, also under alignment patterns |
| SymbolShape.FormatShows | apps/web/lib/qr.ts:186-199 | Bit by bit, the modules where the two copies of the format word stand |
| SymbolShape.VersionShows | apps/web/lib/qr.ts:201-213 | Bit by bit, the modules where the two copies of the version word stand |
| SymbolShape.DarkModuleShows | apps/web/lib/qr.ts:198 | The module beside the bottom left finder pattern is dark |
| QrCode.BuildMatrix | apps/web/lib/qr.ts:162-379 | Trials leave no trace: the result is the placed data under one mask with that mask in its format bits; that mask has the least penalty of all eight and the lowest index among equals |
| QrCode.Toggle | apps/web/lib/qr.ts:257-289 | Masking is its own inverse and never touches a function module, whatever format is drawn in between |
| QrCode.DrawFormat | apps/web/lib/qr.ts:186-199 | Drawing the format of another mask replaces the old format bits and leaves all data modules as they are |
| QrCode.MaskedIsTrial | apps/web/lib/qr.ts:362-376 | The matrix during a trial is the declarative symbol for that mask |
| QrCode.ReadFormatBack | apps/web/lib/qr.ts:186-199 | Both copies of the format word in any symbol spell that word |
| QrCode.ReadVersionBack | apps/web/lib/qr.ts:201-213 | From version 7 on, both copies of the version word in any symbol spell that word and name the version |
| QrCode.TrialsDiffer | apps/web/lib/qr.ts:257-289 | The eight candidates for the same bits all differ in their data modules, in every version |
| QrCode.ReadBitsBack | apps/web/lib/qr.ts:240-289 | Unmasking and traversing any symbol gives the placed bits in order, for every version |
| ErrorCorrection.RepairIsUnique | apps/web/lib/qr.ts:135-160 | For every version and level, at most one valid codeword stream lies within half the correction length of what was read in every block, so the repaired message is unique |
| ErrorCorrection.BlocksDetermineStream | apps/web/lib/qr.ts:153-159 | The de-interleaved blocks determine the whole codeword stream |
| Gf256.GfMultiply | apps/web/lib/qr.ts:47-54 | The shift-and-reduce loop computes multiplication in the field |
| Gf256.MulCommutes | apps/web/lib/qr.ts:47-54 | Multiplication commutes |
| Gf256.MulAssociates | apps/web/lib/qr.ts:47-54 | Multiplication is associative |
| Gf256.MulAddsLeft | apps/web/lib/qr.ts:47-54 | Multiplication distributes over addition on the left |
| Gf256.MulAddsRight | apps/web/lib/qr.ts:47-54 | Multiplication distributes over addition on the right |
| Gf256.MulOne | apps/web/lib/qr.ts:47-54 | One is neutral |
| Gf256.MulModulus | apps/web/lib/qr.ts:47-54 | The reduction polynomial 0x11d acts as zero |
| MinimumDistance.AlphaOrder | apps/web/lib/qr.ts:65 | The powers of 2 do not return to 1 before the 255th |
| MinimumDistance.Logarithm | apps/web/lib/qr.ts:47-54 | Every non-zero byte is a power of 2, so the field has no other elements |
| MinimumDistance.NoZeroDivisors | apps/web/lib/qr.ts:47-54 | A product is zero only if a factor is |
| ReedSolomon.RsComputeDivisor | apps/web/lib/qr.ts:56-68 | The double loop over one array, each cell overwritten while its neighbour is still needed, yields the product of (x - 2^i) for i below the degree, without its leading 1 |
| ReedSolomon.MultiplyByRoot | apps/web/lib/qr.ts:61-64 | One pass multiplies the polynomial in the array by the next linear factor in place |
| ReedSolomon.GeneratorIsMonic | apps/web/lib/qr.ts:56-68 | The leading coefficient that the array leaves out is 1 |
| ReedSolomon.GeneratorVanishes | apps/web/lib/qr.ts:56-68 | The generator has the roots 2^0 to 2^(degree-1) |
| ReedSolomon.RsComputeRemainder | apps/web/lib/qr.ts:70-80 | The shift register loop computes the remainder function |
| ReedSolomon.DivisionIdentity | apps/web/lib/qr.ts:70-80 | Data followed by the remainder is the quotient times the divisor, for all data and every divisor |
| ReedSolomon.CodewordVanishes | apps/web/lib/qr.ts:70-80 | Data followed by its remainder is a multiple of the generator and evaluates to zero at 2^0 to 2^(degree-1) |
| Polynomials.EvalAdds | apps/web/lib/qr.ts:56-80 | Evaluation respects the coefficient-wise sum that the remainder loop forms |
| Polynomials.EvalMultiplies | apps/web/lib/qr.ts:56-80 | Evaluation respects the product of polynomials |
| MinimumDistance.NoRelation | apps/web/lib/qr.ts:56-80 | A weighted sum of at most 255 distinct powers of 2 that vanishes at as many consecutive roots has only zero weights |
| MinimumDistance.MinimumDistance | apps/web/lib/qr.ts:56-80 | Blocks of up to 255 bytes with different data differ in more places than they have error correction bytes |
| MinimumDistance.UniqueDecoding | apps/web/lib/qr.ts:56-80 | Two blocks within half the correction length of what was read carry the same data |
| Versions.ChooseVersion | apps/web/lib/qr.ts:104-111 | The smallest version whose data bits hold mode, count and bytes, and 41 if there is none |
| Versions.TablesAreSound | apps/web/lib/qr.ts:14-41 | For all 160 pairs of version and level the tables leave room for data, blocks of at most 255 bytes, and a byte count that fits its field |
| BitStream.BitBuffer.Append | apps/web/lib/qr.ts:86-91 | Appends the given number of bits, most significant first |
| BitStream.AppendContent | apps/web/lib/qr.ts:113-117 | Mode, byte count and bytes in their fields |
| BitStream.AppendPadBytes | apps/web/lib/qr.ts:122 | Alternating 0xEC and 0x11 up to exactly the capacity |
| BitStream.GroupBytes | apps/web/lib/qr.ts:124-129 | Grouping the bits into bytes loses nothing |
| BitStream.PackCodewords | apps/web/lib/qr.ts:113-129 | The terminator is always four bits, no alignment is needed, padding ends exactly at capacity, and parsing the codewords returns the bytes |
| BitStream.PackedFields | apps/web/lib/qr.ts:113-131 | The codewords bit by bit: 0100, the byte count in 8 or 16 bits, the bytes, 0000, and 236 and 17 in turn |
| BitStream.ParseContent | apps/web/lib/qr.ts:113-117 | A reader finds count and bytes, whatever follows them |
| BitStream.BytesBitsBytes | apps/web/lib/qr.ts:117-129 | Bytes written as bits and grouped again are the same bytes |
| BitStream.BitsBytesBits | apps/web/lib/qr.ts:117-129 | Bits grouped into bytes and written out again are the same bits |
| BitStream.BytesToBitsAt | apps/web/lib/qr.ts:249-250 | Bit k of a byte sequence is bit 7 - k mod 8 of byte k div 8 |
| Interleaving.LayoutTotals | apps/web/lib/qr.ts:136-141 | For all versions and levels, the block lengths sum to the data codewords and, with error correction, to all codewords |
| Interleaving.BuildBlocks | apps/web/lib/qr.ts:143-151 | Each block is its slice of the data, a placeholder if it is short, and its remainder |
| Interleaving.InterleaveTable | apps/web/lib/qr.ts:153-159 | The nested loop lists the table by rows, skipping the placeholders |
| Interleaving.InterleavedAt | apps/web/lib/qr.ts:153-159 | Every entry but the placeholders stands at its own position in the result |
| Interleaving.PositionOf | apps/web/lib/qr.ts:153-159 | Every position of the result holds an entry of the table |
| Interleaving.PositionsDiffer | apps/web/lib/qr.ts:153-159 | Different entries stand at different positions |
| Interleaving.EntriesAreInOrder | apps/web/lib/qr.ts:153-159 | The stream goes through the table row by row and through each row from left to right |
| Interleaving.EntriesOfBlock | apps/web/lib/qr.ts:139-159 | The entries of a block are its data bytes and its error correction bytes; block lengths differ by at most one, the short ones first |
| Interleaving.ReadDataBack | apps/web/lib/qr.ts:143-159 | De-interleaving returns the data in order, for any block count and lengths |
| Interleaving.AddEccAndInterleave | apps/web/lib/qr.ts:135-160 | As many codewords as the version has; de-interleaving returns the data, and each block ends in its remainder |
| FunctionPatterns.CentresApart | apps/web/lib/qr.ts:226-229 | Alignment patterns are at least twelve modules apart, for every version |
| FunctionPatterns.CentresAreEven | apps/web/lib/qr.ts:226-229 | The centres run from 6 to seven modules from the far side, spaced by the least even distance that covers the way, and by 26 in version 32 |
| FunctionPatterns.FourAreas | apps/web/lib/qr.ts:215-238 | The function modules are four areas that do not overlap |
| FunctionPatterns.AlignCount | apps/web/lib/qr.ts:225-235 | How many modules the alignment patterns take beyond the timing lines |
| FunctionPatterns.DataCellCount | apps/web/lib/qr.ts:28-36 | The modules outside all patterns number exactly what the capacity formula says, for every version |
| Symbol.Matrix.constructor | apps/web/lib/qr.ts:163-165 | An all-light matrix without function modules |
| Symbol.Matrix.SetFn | apps/web/lib/qr.ts:167-170 | Sets one module and marks it, and no other |
| Symbol.Matrix.DrawTiming | apps/web/lib/qr.ts:215-219 | Alternating modules on row and column six |
| Symbol.Matrix.DrawFinder | apps/web/lib/qr.ts:172-180 | Concentric squares and separator, cut off at the border |
| Symbol.Matrix.DrawAlign | apps/web/lib/qr.ts:181-184 | A five by five pattern around its centre |
| Symbol.Matrix.AlignCentres | apps/web/lib/qr.ts:226-229 | The centres of the alignment patterns in ascending order |
| Symbol.Matrix.DrawAlignments | apps/web/lib/qr.ts:225-235 | All alignment patterns but those in the three finder corners |
| Symbol.Matrix.FormatWord | apps/web/lib/qr.ts:187-190 | Level, mask and check bits |
| Symbol.Matrix.DrawFormatBits | apps/web/lib/qr.ts:186-199 | Both copies of the format word and the dark module: the same cells for every mask |
| Symbol.Matrix.DrawVersion | apps/web/lib/qr.ts:201-213 | Both copies of the version word, from version 7 |
| Symbol.Matrix.DrawFunctionPatterns | apps/web/lib/qr.ts:215-238 | Exactly the function modules of the version are marked, each with its colour |
| Symbol.Matrix.PlaceCodewords | apps/web/lib/qr.ts:240-255 | The bits go to the data modules in traversal order, and no function module changes |
| Symbol.Matrix.ApplyMask | apps/web/lib/qr.ts:257-289 | Inverts the data modules the mask selects |
| Zigzag.StepsAreDistinct | apps/web/lib/qr.ts:242-248 | No cell is visited twice, and column six never |
| Zigzag.EveryCellVisited | apps/web/lib/qr.ts:242-248 | Every other cell is visited |
| Zigzag.TraversalIsConnected | apps/web/lib/qr.ts:240-255 | From the bottom right the traversal goes left and right in turn, row by row, and into the next pair of columns in the row where it stands, past the timing column |
| Zigzag.TotalRank | apps/web/lib/qr.ts:240-255 | The traversal passes exactly as many data modules as the capacity formula says |
| Zigzag.ReadBack | apps/web/lib/qr.ts:240-255 | Reading the data modules in traversal order gives the placed bits |
| Colours.FormatBitsBelow | apps/web/lib/qr.ts:187-190 | The check bits fit their ten bits, so the fields of the format word do not overlap |
| Colours.FormatRoundTrip | apps/web/lib/qr.ts:187-190 | Mask and level can be read from the format word, for all 32 words |
| Colours.FormatFields | apps/web/lib/qr.ts:186-191 | The codes of the levels and the place of level and mask in the format word |
| Colours.BlankFormat | apps/web/lib/qr.ts:186-191 | The mask of the format word is 0x5412 |
| Colours.LineMasks | apps/web/lib/qr.ts:257-273 | Mask 0 is a chessboard, mask 1 whole rows, mask 2 whole columns and mask 3 diagonals |
| Colours.BlockMask | apps/web/lib/qr.ts:274-276 | Mask 4 is a chessboard of fields of three by two modules |
| Colours.ProductMasks | apps/web/lib/qr.ts:277-285 | Masks 5 and 6 by the remainder of the product modulo 6, and mask 7 as the chessboard inverted where the product is 1 modulo 3 |
| CheckCodes.CheckBitsDivide | apps/web/lib/qr.ts:188-190 | For any data, width, polynomial and number of rounds, the shifted data with the check bits below it is a multiple of the polynomial over the field of two elements |
| CheckCodes.JoinFields | apps/web/lib/qr.ts:190 | Joining two fields that do not overlap by addition or by exclusive or is the same |
| CheckCodes.FormatIsCodeword | apps/web/lib/qr.ts:186-190 | Every format word, its mask taken off, is a multiple of 0x537 |
| CheckCodes.VersionIsCodeword | apps/web/lib/qr.ts:203-205 | Every version word is a multiple of 0x1f25 |
| Runs.RunsAreRuns | apps/web/lib/qr.ts:313-330 | Every line is its list of maximal runs, starting with a light one |
| Runs.PatternIsFiveRuns | apps/web/lib/qr.ts:298-302 | A 1:1:3:1:1 pattern with margins ends at a run exactly if the last runs have those lengths |
| Runs.HistoryCounts | apps/web/lib/qr.ts:298-302 | The test on the seven last run lengths counts the patterns that end there |
| Runs.WindowsCount | apps/web/lib/qr.ts:313-329 | The counts at the ends of runs add up to all patterns of the line |
| Runs.BorderedRuns | apps/web/lib/qr.ts:293-311 | Adding the width to the first and last run counts patterns as if light modules lay beyond both borders |
| Runs.AnyBorder | apps/web/lib/qr.ts:293-311 | How far those light modules reach makes no difference: from four sevenths of the line on, every width of the border shows the same number of patterns |
| Runs.PenaltyWithAnyBorder | apps/web/lib/qr.ts:291-330 | So the penalty of a line is that in a light surround of any width from that of the line on |
| PenaltyRules.AddHistory | apps/web/lib/qr.ts:293-297 | Turns the history of the first m runs of the bordered line into that of the first m + 1 |
| PenaltyRules.TerminateAndCount | apps/web/lib/qr.ts:303-311 | Closing the last run accounts for the border behind it |
| PenaltyRules.ScanLine | apps/web/lib/qr.ts:314-329 | One pass over a line gives n - 2 for each maximal run of length n of at least 5, and 40 for each finder-like pattern |
| PenaltyRules.LineScore | apps/web/lib/qr.ts:313-348 | The score of all rows and columns |
| PenaltyRules.BlockScore | apps/web/lib/qr.ts:349-353 | Three for each two by two block of one colour |
| PenaltyRules.DeviationMeans | apps/web/lib/qr.ts:357-358 | Of an odd number of modules, the balance term k is between 0 and 9, and is the least number with the dark share within 5(k+1) percent of one half |
| PenaltyRules.SymbolDeviation | apps/web/lib/qr.ts:354-358 | Every symbol of every version has an odd number of modules, so that holds of each matrix that is scored |
| PenaltyRules.PenaltyScore | apps/web/lib/qr.ts:291-360 | The score of a matrix is the sum of the four declarative terms (whose values and symmetry are in `PenaltyLaws`) |
| PenaltyLaws.PenaltyIsSymmetric | apps/web/lib/qr.ts:313-358 | A grid and its transpose have the same penalty, and the columns of one score as the rows of the other |
| PenaltyLaws.MonochromePenalty | apps/web/lib/qr.ts:291-360 | An n by n grid of one colour, n at least 5, scores 2n(n - 2) + 3(n - 1)(n - 1) + 90 |
| PenaltyLaws.UniformLine | apps/web/lib/qr.ts:317-320 | A line of one colour costs three for its first five modules and one for each further one |
| PenaltyLaws.FinderLine | apps/web/lib/qr.ts:298-329 | A finder pattern at any scale scores 40 for each of its two margins, besides its long runs |
| PenaltyLaws.RunCostsAdd | apps/web/lib/qr.ts:318-320 | Runs are charged one by one |
| PenaltyLaws.RunsOfDrawn | apps/web/lib/qr.ts:317-328 | A line drawn from runs has these runs |
| PenaltyLaws.CountedIsScaled | apps/web/lib/qr.ts:298-302 | What counts is 000010111010 or 010111010000 with each module drawn n times |
| PenaltyLaws.CountsPlaces | apps/web/lib/qr.ts:298-302 | The number of patterns is that of the places where one ends, counted for each kind of margin |
| PenaltyLaws.CellsAreCounted | apps/web/lib/qr.ts:349-356 | Blocks and dark modules are the sizes of the sets of such cells |
| Sessions.SessionService.IssueSession | apps/api/src/auth/auth.service.ts:242-275 | A new family with one live token of the user that expires after the lifetime; nothing else changes |
| Sessions.SessionService.RefreshToken | apps/api/src/auth/auth.service.ts:277-331 | Each reply exactly under its condition; an accepted token is stamped and linked to a new one of the same user and family, a revoked one revokes the live tokens of its family, other failures change nothing, and no other token changes |
| Sessions.SessionService.SignOut | apps/api/src/auth/auth.service.ts:333-357 | A live token revokes the live tokens of its family; no other token changes, and with any other token nothing does |
| Sessions.SessionService.RevokeAllSessions | apps/api/src/auth/auth.service.ts:359-367 | Exactly the live tokens of the user outside the family that is kept are revoked |
| Sessions.NextKeepsChains | apps/api/src/auth/auth.service.ts:242-367 | Each step keeps: a token is replaced exactly by the next of its family, replaced tokens are revoked, families have one user |
| Sessions.RunKeepsChains | apps/api/src/auth/auth.service.ts:242-367 | Every run keeps it |
| Sessions.OneChain | apps/api/src/auth/auth.service.ts:315-318 | The replacement links of a family form one chain through all its tokens |
| Sessions.LiveIsLast | apps/api/src/auth/auth.service.ts:242-367 | After every run, at most one token of a family is live, and it is the end of the chain |
| Sessions.RunGrows | apps/api/src/auth/auth.service.ts:242-367 | Revoked tokens never change again, and no token changes owner, family or expiry |
| Sessions.RunChanges | apps/api/src/auth/auth.service.ts:242-367 | In every run a token changes only by a call that presents a token of its family or revokes the other families of its user |
| Sessions.OthersStayAlive | apps/api/src/auth/auth.service.ts:277-367 | Logout and refresh leave the tokens of other families as they are, and revoking all of a user those of others and of the kept family |
| Sessions.OnlyLiveIsExchanged | apps/api/src/auth/auth.service.ts:277-331 | A token is made only for a known user or in exchange for a live token that is in time and whose user may sign in |
| Sessions.DeadStaysDead | apps/api/src/auth/auth.service.ts:242-367 | A family without a live token never gets another token |
| Sessions.ReplayKillsFamily | apps/api/src/auth/auth.service.ts:284-300 | After a revoked token is presented, its family is dead after every later run |
| Sessions.SecondUseKillsFamily | apps/api/src/auth/auth.service.ts:277-331 | A token rotates once: any second use, however late, fails and ends the family for good |
| Sessions.LogoutEndsFamily | apps/api/src/auth/auth.service.ts:333-343 | Logout ends a session in use if and only if the token presented is the live one |
| Sessions.LogoutCanLeaveSession | apps/api/src/auth/auth.service.ts:333-343 | A client that logs out with the token it has just rotated keeps its session |
| Lockout.User.Login | apps/api/src/auth/auth.service.ts:38-106 | Denied exactly for an account that is not local, has no password, is suspended or deactivated, of an inactive tenant or locked, or for a wrong password; wrong passwords are counted and the fifth locks for 900,000 ms; success clears both columns |
| Lockout.User.RegisterFailedLogin | apps/api/src/auth/auth.service.ts:121-130 | Counts, and locks on the fifth failure |
| Lockout.User.ClearLock | apps/api/src/auth/auth.service.ts:383-391 | A new password clears the lock |
| Lockout.GuessesAreSpaced | apps/api/src/auth/auth.service.ts:61-89 | The two columns always tell the number of guesses modulo five and the time of the last lock |
| Lockout.LockoutBound | apps/api/src/auth/auth.service.ts:61-130 | The stored count stays in 0..4, and guess j comes at least 900,000 ms times (j/5 - i/5) after guess i, for all runs and all i, j |
| Lockout.FivePerWindow | apps/api/src/auth/auth.service.ts:61-130 | At most five wrong passwords are compared in any time shorter than 15 minutes |
| Lockout.BoundIsTight | apps/api/src/auth/auth.service.ts:61-130 | For every number of guesses some run meets the bound exactly |
| SearchGraph.BuildMaps | apps/api/src/ai/audit-intelligence.engine.ts:181-195 | A record is a parent exactly if a usable link leads from it, evidence also leads back to the finding it supports, and nothing leads outside the index |
| SearchGraph.MapsMean | apps/api/src/ai/audit-intelligence.engine.ts:181-195 | The two maps in terms of the links: both ends indexed, not a repeated finding, and from evidence on to the findings it supports |
| SearchGraph.Walk | apps/api/src/ai/audit-intelligence.engine.ts:196-210 | The queue loop with its found map computes the specified walk, on every graph |
| SearchGraph.WalkIsReachable | apps/api/src/ai/audit-intelligence.engine.ts:196-210 | A walk lists exactly the root and what is reachable from it, each once and the nearest first |
| SearchGraph.WalkExplores | apps/api/src/ai/audit-intelligence.engine.ts:199-208 | Every listed record is reached in as many steps as its depth, and everything next to it is listed |
| SearchGraph.WalkEnters | apps/api/src/ai/audit-intelligence.engine.ts:199-208 | Of the neighbours of a listed record a walk up lists all, and a walk down all but entities, processes and engagements |
| SearchGraph.ExploredIsComplete | apps/api/src/ai/audit-intelligence.engine.ts:199-208 | Whatever n steps reach is listed at depth n or less |
| SearchGraph.UpAndDown | apps/api/src/ai/audit-intelligence.engine.ts:181-189 | A record reaches another upwards exactly if that one reaches it downwards, leaving aside the way back from evidence |
| SearchGraph.AncestorsReachDown | apps/api/src/ai/audit-intelligence.engine.ts:181-195 | With the way back, ancestors still reach their descendants |
| SearchGraph.Search.Ancestors | apps/api/src/ai/audit-intelligence.engine.ts:211-215 | The memo always returns what a fresh walk would, and never changes an answer |
| SearchGraph.PagesAreTheMatches | apps/api/src/ai/audit-intelligence.engine.ts:488-490 | The pages of 25 in order are the matches: none is lost or repeated |
| SearchGraph.Include | apps/api/src/ai/audit-intelligence.engine.ts:491-498 | All selected records and related ones up to 400, nothing else, and the warning exactly when a related one is missing |
| RecordLinks.LinkAuditRecords | apps/api/src/ai/audit-universe-index.service.ts:44-70 | Each link once, and exactly those from the last record with a kind and id to another record that refers to that kind and id by a field |
| RecordLinks.RefsAreFields | apps/api/src/ai/audit-universe-index.service.ts:53-67 | A record refers to exactly what its filled reference fields name and, by kind, its risks, findings, subject or owner |
| RecordLinks.ParentFields | apps/api/src/ai/audit-universe-index.service.ts:30-42 | The eleven reference fields with their kinds and link names, each linked exactly if it is filled |
| RecordLinks.StepUpIsField | apps/api/src/ai/audit-universe-index.service.ts:44-70 | One step up leads exactly to the other records that the fields name, those of repeated findings apart |
| RecordLinks.NamedIsAncestor | apps/api/src/ai/audit-universe-index.service.ts:44-70 | Every record that a field other than that of a repeated finding names is an ancestor |
| RecordLinks.ReplacedIsUnlinked | apps/api/src/ai/audit-universe-index.service.ts:45 | Of two records with one kind and id the earlier is linked to nothing |
| RecordLinks.ParentsAreReferences | apps/api/src/ai/audit-universe-index.service.ts:44-70 | One step up the search graph is one reference other than to a repeated finding |
| RecordLinks.WalkIsTrace | apps/api/src/ai/audit-intelligence.engine.ts:196-215 | Walking up from a record lists exactly the records that chains of references lead to, each once |
| RecordLinks.AncestorsOf | apps/api/src/ai/audit-intelligence.engine.ts:181-215 | Linking, building the maps and walking up, in one: the ancestors of a record are those its references lead to, among them every record that one of its fields names |
| AuditSearch.ReadRecordsAreDistinct | apps/api/src/ai/audit-universe-index.service.ts:93-160 | If the tables come in ascending order, no record is read twice |
| AuditSearch.IndexedAncestors | apps/api/src/ai/audit-universe-index.service.ts:81-234 | From the store to an answer: the ancestors of an indexed record are exactly the indexed records that chains of references lead to, and every record is the one its kind and id stand for |
| UniverseIndex.IndexKind | apps/api/src/ai/audit-universe-index.service.ts:98-160 | For any reader the loop ends within the limits; for one that serves a table the rows collected are a prefix, all of it if the kind is not marked, and a mark means a failed read or a limit |
| UniverseIndex.AddPage | apps/api/src/ai/audit-universe-index.service.ts:103-150 | Rows of a page in order until a limit is met, which marks the kind |
| UniverseIndex.AddRow | apps/api/src/ai/audit-universe-index.service.ts:108-148 | Numbers the source and counts its text |
| UniverseIndex.CursorContinues | apps/api/src/ai/audit-universe-index.service.ts:100-156 | The id of the last row read continues exactly behind that row |
| UniverseIndex.NextPage | apps/api/src/ai/audit-universe-index.service.ts:99-156 | A page has at most 250 rows, continues the table, is short only at its end, and otherwise moves the cursor |
| UniverseIndex.FilterMembers | apps/api/src/ai/audit-universe-index.service.ts:167-172 | The filter drops nothing but comments whose subject was not read |
| UniverseIndex.FilterOfKind | apps/api/src/ai/audit-universe-index.service.ts:167-172 | Other kinds pass the filter unchanged and in order |
| UniverseIndex.Build | apps/api/src/ai/audit-universe-index.service.ts:81-234 | For every permission set and reader: the limits hold, kinds that are permitted and not marked are complete, numbers are unique, and the search is unavailable exactly if every permitted kind failed at its first read |
| UniverseIndex.WithinLimits | apps/api/src/ai/audit-universe-index.service.ts:105-148 | At most 20,000 records, numbered from 1; all but the last hold less than 25,000,000 characters; the text-limited ones are counted |
| UniverseIndex.CutOnlyByLimits | apps/api/src/ai/audit-universe-index.service.ts:98-160 | A kind whose reads succeed is complete unless it has 5,000 records or one of the limits of the index is met |
| UniverseIndex.AnchoredMeans | apps/api/src/ai/audit-universe-index.service.ts:166-172 | A comment is kept exactly if its subject was read, everything else always |
| Ageing.DaysOverdue | packages/shared/src/ageing.ts:19-23 | Whole days since the due time, never negative, and none without a due date |
| Ageing.EscalationRises | packages/shared/src/ageing.ts:26-31 | The level never falls as time goes by |
| Ageing.LevelsStart | packages/shared/src/ageing.ts:19-31 | The levels start 1, 15 and 46 days after the due time |
| Ageing.NotYetOverdue | apps/api/src/jobs/reminder-schedule.ts:19-28 | Before the due day nothing is overdue |
| Reminders.ReminderDecision | apps/api/src/jobs/reminder-schedule.ts:17-32 | Days overdue are zero before the due day, and nobody is reminded twice on a day |
| Reminders.DueMeans | apps/api/src/jobs/reminder-schedule.ts:17-32 | A reminder is due exactly 14, 7 and 1 days ahead, on the due day, and from then on 604,800,000 ms after the last |
| Reminders.DecisionMeans | apps/api/src/jobs/reminder-schedule.ts:17-32 | The reason and the figures of a decision for any input |
| Reminders.ReminderJob.RunAll | apps/api/src/jobs/reminders.service.ts:45-145 | A run decides on every item once and counts the reminders; a failed notification ends it there, with the items before reminded and the others untouched; a run during another does nothing |
| Reminders.CountDueIs | apps/api/src/jobs/reminders.service.ts:45-145 | The count of a run is the number of due items |
| Reminders.LastIsRecorded | apps/api/src/jobs/reminders.service.ts:105-112 | After any runs the last reminder and the count on record are those of the reminders sent |
| Reminders.RemindersAreSpaced | apps/api/src/jobs/reminders.service.ts:89-112 | Over any runs, reminders ahead of the due day fall on scheduled days, and those after it a week after the one before |
| Reminders.OneReminderPerDay | apps/api/src/jobs/reminders.service.ts:89-112 | Any two reminders are on different UTC days |
| Reminders.RunReminds | apps/api/src/jobs/reminder-schedule.ts:23-31 | A run on a scheduled day or the due day leaves a reminder of that day |
| Reminders.RunAfterDueReminds | apps/api/src/jobs/reminder-schedule.ts:29-31 | After a run that follows the due day, the last reminder is less than a week old |
| Reminders.DailyRunsRemind | apps/api/src/jobs/reminders.service.ts:89-112 | With a run every day there is a reminder on the due day, and after each one from then on another within eight calendar days |
| Reminders.GapOfEightDays | apps/api/src/jobs/reminder-schedule.ts:29-31 | Eight days do occur: when the run a week later is earlier in the day |
| Reminders.LevelNeverFalls | apps/api/src/jobs/reminders.service.ts:109-112 | The stored escalation level never falls while the due date stays |
| Reminders.LevelIsCurrent | apps/api/src/jobs/reminders.service.ts:109-112 | The stored level is that of the last reminder |
| Workflows.Transit | apps/api/src/workflow/workflow.service.ts:41-63 | Accepts, or refuses with the first reason, as specified |
| Workflows.Evaluate | apps/api/src/workflow/workflow.service.ts:97-110 | Lists the guards that fail, in order |
| Workflows.FindMeans | packages/shared/src/workflows.ts:108-114 | Finds a transition exactly if the table has one |
| Workflows.AcceptedMeans | apps/api/src/workflow/workflow.service.ts:41-63 | An accepted transition is in the table, permitted, and all its guards hold |
| Workflows.AttemptMeans | apps/api/src/workflow/workflow.service.ts:41-63 | Each reply exactly under its condition: no such transition, no permission, guards that do not hold, or accepted |
| Workflows.OfferedIsAccepted | apps/api/src/workflow/workflow.service.ts:66-95 | The actions shown as allowed are exactly those that will be accepted |
| Findings.FindingRecord.constructor | apps/api/src/findings/findings.service.ts:219-248 | A new finding is a draft with one history entry |
| Findings.FindingRecord.UpdateFinding | apps/api/src/findings/findings.service.ts:261-318 | Who may edit what in which status, and every field of the row after an edit |
| Findings.FindingRecord.TransitionFinding | apps/api/src/findings/findings.service.ts:326-380 | A transition is accepted exactly if the status, the permission and what must be recorded are there; every field of the row afterwards |
| Findings.FindingRecord.ExtendFinding | apps/api/src/findings/findings.service.ts:407-415 | A later due date for agreed findings only; the first due date is kept, the extension counted, the escalation restarted, and nothing else changes |
| Findings.RunIsConsistent | apps/api/src/findings/findings.service.ts:261-432 | In every reachable state: agreed date and original due date are set exactly from agreement on, the closing date exactly in terminal states, a closed finding was validated by someone other than its owner, and the history is a chain to the current status |
| Findings.OriginalDueDateIsAgreed | apps/api/src/findings/findings.service.ts:340-352 | A finding is agreed in exactly one step, and its original due date stays the due date of that step through all edits and extensions |
| Findings.AgreementHasDueDate | apps/api/src/findings/findings.service.ts:110-117 | Nothing is agreed without an owner and a due date |
| Findings.AcceptedExactly | apps/api/src/findings/findings.service.ts:95-135 | What each of the eight actions needs: status, permission, texts, owner, due date, evidence, and another validator |
| Findings.BlankIsTrimmed | apps/api/src/common/utils.ts:42-44 | A text is blank exactly if it is absent or trimming leaves nothing |
| Findings.ValidatorIsAnother | apps/api/src/findings/findings.service.ts:127-135 | Nobody validates or rejects the finding they own |
| Findings.TerminalIsFinal | apps/api/src/findings/findings.service.ts:261-432 | A closed or risk-accepted finding never changes again |
| Findings.LevelNeverFalls | apps/api/src/findings/findings.service.ts:407-415 | Through any reminders, edits and transitions the escalation level never falls before the next accepted extension |
| Findings.OfferedActionsAreAccepted | apps/api/src/findings/findings.service.ts:186 | The actions offered for a finding are those that will be accepted |
| Engagements.EngagementRecord.constructor | apps/api/src/engagements/engagements.service.ts:258-312 | A new engagement is in planning, active, with one history entry |
| Engagements.EngagementRecord.UpdateEngagement | apps/api/src/engagements/engagements.service.ts:325-391 | The report of a closed engagement, a foreign document and a final status are refused; otherwise every field of the row is as given |
| Engagements.EngagementRecord.TransitionEngagement | apps/api/src/engagements/engagements.service.ts:393-440 | A transition is accepted exactly if the stage, the permission and what must be on record are there; every field of the row afterwards |
| Engagements.EngagementRecord.CreateFinding | apps/api/src/findings/findings.service.ts:203-258 | A draft is added unless the engagement is closed or a reference invalid; nothing else changes |
| Engagements.RunIsConsistent | apps/api/src/engagements/engagements.service.ts:258-453 | In every reachable state: the history is a chain that goes through all stages in order with only fieldwork and review repeated, or a cancellation from planning; a final status implies closed; the issue date is set exactly once the report is out |
| Engagements.ReportIssuedOnce | apps/api/src/engagements/engagements.service.ts:412-414 | The report is issued in at most one step of any run, and its date is that of the step |
| Engagements.ReportNeedsAgreement | apps/api/src/engagements/engagements.service.ts:127-132 | A report is issued only when no finding is a draft or under review |
| Engagements.AcceptedExactly | apps/api/src/engagements/engagements.service.ts:87-151 | What each of the nine actions needs: stage, permission, plan, programme, workpapers, notes and the state of all findings |
| Engagements.CloseNeedsOwners | apps/api/src/engagements/engagements.service.ts:133-151 | An engagement closes only when every finding is owned and none is a draft |
| Engagements.ClosedIsFrozen | apps/api/src/engagements/engagements.service.ts:325-453 | Once closed: no further stage, report or finding, and findings change only by their own steps |
| Engagements.StatusOfClosed | apps/api/src/engagements/engagements.service.ts:334-336 | A closed engagement leaves its final status exactly by an accepted edit of the status |
| Engagements.FinalUnlessReopened | apps/api/src/engagements/engagements.service.ts:325-453 | In every run: a closed engagement has a final status exactly if no edit of the status has been accepted since it closed |
| Engagements.CompletedIfReported | apps/api/src/engagements/engagements.service.ts:405-430 | In every run: an engagement that was closed and not reopened is completed if its report is out, and cancelled otherwise |
| Engagements.ClosedCanBeActive | apps/api/src/engagements/engagements.service.ts:325-366 | Every new engagement can be closed and then set active |
| Engagements.DraftInClosed | apps/api/src/findings/findings.service.ts:326-380 | A draft appears in a closed engagement exactly when a finding under review is returned |
| Library.LibraryService.CreateItem | apps/api/src/library/library.service.ts:84-107 | A first version in draft, unless the tenant has a first version of that code |
| Library.LibraryService.UpdateItem | apps/api/src/library/library.service.ts:110-171 | A new version of published and global items, an edit in place of open ones, nothing otherwise |
| Library.VersionIsMade | apps/api/src/library/library.service.ts:110-150 | When exactly an edit makes a new version |
| Library.EditIsInPlace | apps/api/src/library/library.service.ts:110-171 | When exactly an edit changes a draft in place |
| Library.NewVersionIs | apps/api/src/library/library.service.ts:125-150 | The new version is the caller's draft with the next number after its parent and all of the tenant's versions of the code |
| Library.LibraryService.SubmitItem | apps/api/src/library/library.service.ts:173-192 | Drafts of the caller's tenant, or global ones for an administrator; no other row changes |
| Library.LibraryService.ApproveItem | apps/api/src/library/library.service.ts:194-208 | Publishes a pending item that the caller may change and retires exactly what was published under its code and tenant |
| Library.LibraryService.RetireItem | apps/api/src/library/library.service.ts:210-217 | Anything not yet retired that the caller may change; no other row changes |
| Library.NextIsSound | apps/api/src/library/library.service.ts:84-217 | Each step keeps the four invariants of the store |
| Library.RunIsSound | apps/api/src/library/library.service.ts:84-217 | For any callers of any tenants: at most one item is published per tenant and code, versions rise from parent to child, version numbers are unique per tenant and code, and no tenant has two open versions of an item |
| Library.ChainsAreAcyclic | apps/api/src/library/library.service.ts:110-150 | Every ancestor of a version has a lower number, so chains have no cycle |
| Library.RunGrows | apps/api/src/library/library.service.ts:84-217 | Retired is final, published codes are fixed, and tenant, number and parent never change |
| Library.RowChanges | apps/api/src/library/library.service.ts:84-217 | The only five ways in which a row changes, each by a caller of its tenant or an administrator of a global row |
| Library.RunIsolates | apps/api/src/library/library.service.ts:84-217 | In every run a row changes only through a caller of its own tenant, or a global one through an administrator |
| Library.NewRowsAreOwn | apps/api/src/library/library.service.ts:84-171 | A new row belongs to the caller's tenant |
| Library.OpenChildrenOfGlobal | apps/api/src/library/library.service.ts:121-122 | Two open versions of one item occur only for a global item, and belong to different tenants |
| Library.SecondOpenChild | apps/api/src/library/library.service.ts:119-124 | A second open version is made exactly if the item is global and the caller's tenant has none yet |
| Library.TwoOpenChildren | apps/api/src/library/library.service.ts:119-150 | Two tenants that edit one global item leave it with two open versions |

## Left out

- Text: the conversion of a string to UTF-8 and the SVG path of a matrix are platform calls and formatting.
- Distances of the format and version words: facts about two small tables.
- Decoding damaged symbols: `RepairIsUnique` says that a repair is unique, not how to find it; the repository has no decoder.
- Cryptography: hashing, signatures, one-time codes, recovery codes and password hashing are taken as given; secrets are unique.
- Concurrency: calls that overlap, and crashes inside a call, are not modelled; the source gives no atomicity across its awaits.
- Sessions.SessionService.IssueSession: has no family argument; the source takes an optional one that none of its callers passes.
- UniverseIndex.AddRow: keeps of a row's text its length and whether it was cut, not the text, label or excerpt.
- UniverseIndex.Build: does not look up owner names or word warnings; the links that the source adds at the end are those of `RecordLinks`.
- Reminders.ReminderJob.RunAll: is one tenant's run, without milestone alerts and recipients.
- Findings.FindingRecord.TransitionFinding: does not set the statuses of recommendations, which can be edited separately.
- Engagements.EngagementRecord.UpdateEngagement: leaves out descriptive fields and membership rows, on which no rule depends.
- Engagements.EngagementRecord.TransitionEngagement: leaves out the audit dates of the entity and the status of the plan item.
- Search queries: interpretation of the query text, synonyms, match predicates, scores and the narrative are heuristics.
- Unstable stores: completeness of the index is stated for a table that does not change between pages.
- Ageing buckets, lists and dashboards add only case distinctions.
- Item histories across failing runs: the lemmas about many runs speak of the runs that reach the item.
- References: finding references and audit numbers with their retry loops are left to the database's uniqueness.
- Guards about workpapers, programmes, notes, evidence and recommendations read counts that are arguments here; those services are not part of this model.
- Other workflows: the workpaper, plan and request machines use the same service, modelled in `Workflows`.
- Library content: validation and framework references are one flag, and seeding is any sound initial store.
