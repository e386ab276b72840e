# A verified model of OpenNAS

OpenNAS is a home server: it shares folders, signs people in, lets other programs sign them in through
OpenID Connect, guards its ports, runs maintenance on a timer and backs its configuration up. This project
models the parts of its API server where an error would be quiet and costly, and proves what those parts
are for. Five groups of modules:

**The QR encoder** that draws the enrolment code of an authenticator app (versions 1 to 10, level M, byte mode).
`Gf256` builds the field from a carry-less product, `ReedSolomon` proves that the in-place shift register is
polynomial division and that codewords keep their distance, `BitStream`, `Interleave`, `QrVersions` and
`QrCodewords` follow the data into blocks, `QrLayout`, `QrZigzag`, `QrRoom` and `QrFormat` place them in the grid,
`QrMasks` and `QrPictures` hold what is drawn against the figures and tables of the standard, written out, and
`QrSymbol` and `QrEncoder` end in the main result: a reader, written only as a specification, gets the text's bytes
back from every grid the encoder can draw, whatever mask was chosen; it turns modules back over by pictures of the masks. Loops that write arrays and grids are methods
over arrays and grids.

**Access to paths.** `VirtualPaths` translates between shown and real paths, `FolderAccess` combines share grants
(the most generous wins) with folder rules (the deepest wins), and `AppGrants` narrows a user's rights to what they
picked for an app.

**Signing in.** `Base32` is the encoding of authenticator secrets and `TimeCodes` the codes made from them. `LoginAttempts`,
`SecondFactor` and `OidcProvider` are state machines over time, and their theorems are about every run from an empty
start. A request of the second factor or of the provider is one step, because nothing is awaited between the checks that
step makes and its updates; what a request asked before it waited for a password check is not asked again in its step.
Passwords of one account are checked one at a time, while anything else may happen to the account meanwhile. Each module also has a class whose methods update the tables in
place, tied to the steps by their contracts.

**The firewall.** `Firewall` compiles the settings into an ordered chain, reads the chain by first match, and shows
that it means the policy, stated without any chain.

**Schedules and backups.** `Calendar` and `Schedule` find the next occurrence of a daily, weekly or monthly schedule,
`SystemTasks` keeps the table of tasks. `NamedTable` merges lists of entries into tables by name ignoring case,
`ConfigBackup` states export and restore, `ConfigStore` runs them loop by loop, `ConfigIntegrity` and `ConfigRoundTrip` prove
that a restore keeps the tables sound and that it undoes an export, and `ConfigMeaning` tells, entry by entry and column by
column, what a restore leaves in the tables.

Eight properties that read as laws hold under a condition only. Each is stated with its condition, and beside it stands an
input for which it fails:

- A restored export says the same as the original exactly when no two groups and no two shares have the same name
  ignoring case; the tables allow such names, but the restore merges them (`ConfigRoundTrip.RoundTrip`; it fails for the
  shares "Media" and "media", `ConfigRoundTrip.CaseTwinsMerge`).
- A restore goes through exactly when every named share of the backup gives a volume; the column takes no null, so one
  share without it aborts the whole transaction and nothing of the backup stays (`ConfigIntegrity.CommitsIff`; it fails for
  a backup of one such share, `ConfigBackup.NullVolumeAborts`).
- The preview of a restore takes each entry for new or known as the restore will exactly when the backup repeats no new
  name and the preview's way of lower-casing finds the same names known as the database's
  (`ConfigStore.PlanMatchesUsers`, `PlanMatchesGroups`, `PlanMatchesShares`). It fails for a new share named twice
  (`ConfigStore.RepeatIsMiscounted`), and for a share "Ämter" previewed on the very box it was exported from
  (`ConfigStore.UmlautIsMiscounted`). Its count of settings is right exactly when the backup holds no excluded key
  (`ConfigStore.PlanMatchesSettings`; it fails for a backup of one such key, `ConfigStore.ExcludedIsMiscounted`).
- Naming one more trusted network can drop packets that were let in before, exactly when it is the first one and services
  are limited to trusted networks (`Firewall.NewNetworkDrops`; it fails for a connection to SSH,
  `Firewall.FirstNetworkShutsOut`). The settings route refuses that limit without a network
  (apps/api/src/admin/routes.ts:1125-1130); a restored backup can still bring it.
- A generated ruleset loads exactly when no two trusted networks of one family conflict by sharing an address
  (`Firewall.LoadsWithoutConflict`; it fails for 10.0.0.0/8 beside 10.1.0.0/16, `Firewall.NestedNetworksDoNotLoad`).
- Between two starts of a maintenance task its schedule came round whenever the later start is the timer's
  (`SystemTasks.RunsAreSpaced`); two starts by hand can be five seconds apart (`SystemTasks.ManualStartsMayCrowd`). The
  exact test over the row, for any start, is that the task never ran or its schedule came round since the stored last run
  (`SystemTasks.DistanceIsSinceLastRun`). From schedule and next run alone, which is what the timer looks at, the distance
  of an enabled task is certain exactly when it is due (`SystemTasks.DueIsTheTest`).
- Running a task by hand leaves its next run alone exactly while that is still to come (`SystemTasks.RunNowKeepsSchedule`;
  it fails for a due task, whose run is put off, `SystemTasks.DueRunIsSkipped`).
- A real path inside a share is reached from the virtual path it is shown as exactly when the share's name is the name of
  a folder (`VirtualPaths.RealRoundTrip`; it fails for a share "a/b", `VirtualPaths.SlashedShareIsUnreachable`). The API
  gives shares such names only; a restored backup may hold any.

Where code and comments differ the model follows the code: the comment on `nextRun` says that a date past the end of the
month rolls forward (apps/api/src/db/system-tasks.ts:72-73), while the code clamps it to the last day
(apps/api/src/db/system-tasks.ts:96-101). The comment on `POST /tasks/:id/run` says that it does not disturb the schedule
(apps/api/src/admin/routes.ts:754-755); the code arms the task anew, which leaves the next run alone only while that is
still to come (`SystemTasks.RunNowKeepsSchedule`). An empty `code_challenge` counts as none at the token endpoint
(apps/api/src/oidc/provider.ts:217), as in the model.

## Model

| member | source | states |
|---|---|---|
| Gf256.MulIsProduct | apps/api/src/auth/qr.ts:34-38 | the table product EXP[LOG a + LOG b] is the carry-less product modulo 0x11d, defined on its own by shift and add, for every pair of bytes |
| Gf256.KnownPowers | apps/api/src/auth/qr.ts:21-30 | the powers of 2 double below 256 and are reduced by 0x11d above: 2^7 is 0x80, 2^8 is 0x1d |
| Gf256.OrderIs255 | apps/api/src/auth/qr.ts:21-33 | 2 is primitive: no smaller positive power than the 255th is 1, so the log table meets every non-zero byte |
| Gf256.ExpPeriodic | apps/api/src/auth/qr.ts:31-31 | the powers of 2 repeat after 255, which is why a 512-entry table that repeats itself is right |
| Gf256.ExpInjective | apps/api/src/auth/qr.ts:25-30 | the first 255 powers are all different, so no log entry is overwritten |
| Gf256.HasLog | apps/api/src/auth/qr.ts:27-27 | every non-zero byte is one of the 255 powers |
| Gf256.MulAssociates | apps/api/src/auth/qr.ts:34-38 | the table product is associative |
| Gf256.MulDistributes | apps/api/src/auth/qr.ts:34-38 | the table product distributes over xor |
| Gf256.NoZeroDivisors | apps/api/src/auth/qr.ts:35-35 | a product is zero exactly when a factor is |
| Gf256.DoubledIsTimes2 | apps/api/src/auth/qr.ts:28-29 | the shift with its conditional reduction on a wider number is multiplication by 2 in the field |
| Gf256.FillPowers | apps/api/src/auth/qr.ts:23-30 | the filling loop leaves the powers in EXP and their exponents in LOG |
| Gf256.RepeatPowers | apps/api/src/auth/qr.ts:31-31 | the second loop extends EXP to all 512 powers |
| Gf256.GfTables.constructor | apps/api/src/auth/qr.ts:21-32 | building the tables establishes what gfMul relies on |
| Gf256.GfTables.GfMul | apps/api/src/auth/qr.ts:34-38 | gfMul on the filled tables is the field product |
| ReedSolomon.RsGenerator | apps/api/src/auth/qr.ts:40-51 | the loop of products builds the generator polynomial, for every degree the table allows |
| ReedSolomon.MultiplyByRoot | apps/api/src/auth/qr.ts:43-48 | one turn multiplies the polynomial by (x - root) |
| ReedSolomon.GeneratorIsMonic | apps/api/src/auth/qr.ts:41-51 | the leading coefficient of the generator is 1 |
| ReedSolomon.GeneratorRoots | apps/api/src/auth/qr.ts:40-51 | the generator of degree d vanishes at 2^0 .. 2^(d-1) |
| ReedSolomon.KnownGenerator | apps/api/src/auth/qr.ts:40-51 | two error correction codewords go with x^2 + 3x + 2, highest coefficient first |
| ReedSolomon.KnownRemainder | apps/api/src/auth/qr.ts:53-65 | the error correction of the data 1, 0 with that generator is 7, 6 |
| ReedSolomon.ShiftIn | apps/api/src/auth/qr.ts:56-63 | one data byte shifted into the register in place is one step of long division |
| ReedSolomon.AddMultiple | apps/api/src/auth/qr.ts:60-62 | the inner loop adds a multiple of the generator's tail to the register and touches nothing else |
| ReedSolomon.RsEncode | apps/api/src/auth/qr.ts:53-65 | the in-place shift register ends up holding the remainder of the division by the generator, for data of any length |
| ReedSolomon.DivisionIdentity | apps/api/src/auth/qr.ts:53-65 | data * x^ec + remainder = quotient * generator at every point of the field, for data of any length and any monic divisor |
| ReedSolomon.CodewordRoots | apps/api/src/auth/qr.ts:40-65 | data followed by its error correction vanishes at 2^0 .. 2^(ec-1) (ISO/IEC 18004, section 7.5) |
| ReedSolomon.VandermondeBound | apps/api/src/auth/qr.ts:53-65 | values whose first k power sums at distinct locators vanish are all zero or non-zero in more than k places |
| ReedSolomon.MinimumDistance | apps/api/src/auth/qr.ts:53-65 | two different data blocks of one length, with n + ec at most 255, give codewords that differ in at least ec + 1 places |
| ReedSolomon.NearestIsUnique | apps/api/src/auth/qr.ts:53-65 | with at most ec/2 wrong codewords in a block, no other block is as near to what was read |
| QrVersions.DataCodewordsTable | apps/api/src/auth/qr.ts:78-96 | the group table adds up to the standard's data codewords of versions 1 to 10, level M |
| QrVersions.CapacityTable | apps/api/src/auth/qr.ts:98-105 | the byte capacities are those of the standard, 14 to 213 |
| QrVersions.CountTable | apps/api/src/auth/qr.ts:97-100 | the payload count has 8 bits up to version 9 and 16 in version 10 |
| QrVersions.BlockTable | apps/api/src/auth/qr.ts:78-96 | how many blocks each version has, how long each is and how many error correction codewords it gets, as in the standard (ISO/IEC 18004, Table 9) |
| QrVersions.PickVersion | apps/api/src/auth/qr.ts:107-112 | the version picked is the first that has room; it fails exactly above 213 bytes |
| QrVersions.BlockLengthsTotal | apps/api/src/auth/qr.ts:93-96 | the lengths of the blocks, spelled out, add up to the data codewords |
| BitStream.BitWriter.Push | apps/api/src/auth/qr.ts:118-120 | pushing appends the number's low bits, most significant first |
| BitStream.BitWriter.ToBytes | apps/api/src/auth/qr.ts:124-130 | the bytes are the bits in order with zeros behind them, in ceil(n/8) bytes |
| BitStream.NumberRoundTrip | apps/api/src/auth/qr.ts:118-120 | a number written in enough bits reads back as itself |
| BitStream.PackRoundTrip | apps/api/src/auth/qr.ts:124-130 | reading the bits of bytes in eights gives the bytes back |
| BitStream.ByteIsNumber | apps/api/src/auth/qr.ts:118-120 | pushing a byte in eight bits is the byte's own bits |
| QrCodewords.WriteStream | apps/api/src/auth/qr.ts:136-142 | mode, count, bytes, terminator and padding to a whole codeword are pushed in that order |
| QrCodewords.EncodeData | apps/api/src/auth/qr.ts:133-149 | the data codewords are the stream followed by the alternating filler 0xec, 0x11, and a reader of mode, count and bytes gets the payload back |
| QrCodewords.StreamRoundTrip | apps/api/src/auth/qr.ts:133-149 | mode, count and bytes are read back from any such data, in every version and up to its full capacity (ISO/IEC 18004, section 7.4) |
| QrCodewords.LetterA | apps/api/src/auth/qr.ts:133-149 | the data codewords of the payload "A" bit by bit: mode 0100, count 00000001, 01000001, 0000, then 0xec and 0x11 in turn up to sixteen codewords |
| QrCodewords.SplitBlocks | apps/api/src/auth/qr.ts:158-163 | the data is cut into consecutive blocks of the lengths given, each with its own error correction |
| QrCodewords.ListBlocks | apps/api/src/auth/qr.ts:157-158 | the nested loops over groups and counts visit the blocks in order |
| QrCodewords.DataBlocksShape | apps/api/src/auth/qr.ts:154-161 | the blocks laid end to end are the data, none lost and none repeated |
| QrCodewords.ReadColumns | apps/api/src/auth/qr.ts:165-172 | the output loops push column by column and skip a block that has run out |
| QrCodewords.BuildCodewords | apps/api/src/auth/qr.ts:152-174 | the method computes the interleaved data blocks followed by the interleaved error correction |
| QrCodewords.CodewordsRoundTrip | apps/api/src/auth/qr.ts:152-174 | de-interleaving gives back every data block and the whole data, although the block lengths differ (section 7.6) |
| QrCodewords.EcRoundTrip | apps/api/src/auth/qr.ts:165-173 | the output has data + blocks * ec codewords, and its tail de-interleaves to each block's own error correction |
| Interleave.ElementAtPosition | apps/api/src/auth/qr.ts:165-169 | element i of block b stands at a place told from the block lengths alone |
| Interleave.InterleavedLength | apps/api/src/auth/qr.ts:165-169 | interleaving neither drops nor adds an element |
| Interleave.TwoAndThree | apps/api/src/auth/qr.ts:165-172 | the order for a block of two and one of three: first of each, second of each, then the rest of the longer |
| Interleave.InterleaveRoundTrip | apps/api/src/auth/qr.ts:165-172 | interleaving is undone by reading from those places, for blocks of any lengths |
| Interleave.CutRoundTrip | apps/api/src/auth/qr.ts:156-163 | cutting at the lengths and joining again is the identity |
| QrLayout.PlaceFinder | apps/api/src/auth/qr.ts:185-198 | a finder and its quiet border are drawn at a corner, clipped to the grid, and nothing else changes |
| QrLayout.PlaceTiming | apps/api/src/auth/qr.ts:206-211 | the timing row and column alternate between the finders |
| QrLayout.PlaceAlignment | apps/api/src/auth/qr.ts:220-225 | one alignment pattern is the 5 by 5 ring |
| QrLayout.PlaceAlignments | apps/api/src/auth/qr.ts:213-227 | alignment patterns are drawn at every pair of centres but the three near a finder |
| QrLayout.ReserveFormat | apps/api/src/auth/qr.ts:231-239 | the format areas are reserved where nothing is drawn yet |
| QrLayout.VersionTable | apps/api/src/auth/qr.ts:255-259 | the remainder loop of the version field gives the four words of the standard |
| QrLayout.VersionBits | apps/api/src/auth/qr.ts:255-259 | the method computes that word |
| QrLayout.PlaceVersion | apps/api/src/auth/qr.ts:241-251 | both copies of the version field are written bit by bit, one the mirror image of the other |
| QrLayout.PlaceFunctionPatterns | apps/api/src/auth/qr.ts:200-252 | in every version the fixed modules are those of a closed-form layout, and all others stay unset |
| QrLayout.LayersAgree | apps/api/src/auth/qr.ts:200-252 | drawing the layers one over the other agrees with that layout, where patterns meet as well |
| QrPictures.TopLeftCorner | apps/api/src/auth/qr.ts:185-239 | the upper left corner, module by module as in a picture: finder, quiet border, ends of the timing lines, reserved format area |
| QrPictures.TopRightCorner | apps/api/src/auth/qr.ts:185-239 | the same for the upper right corner |
| QrPictures.BottomLeftCorner | apps/api/src/auth/qr.ts:185-239 | the same for the lower left corner, with the module that is always dark |
| QrPictures.AlignmentCentres | apps/api/src/auth/qr.ts:78-89 | the centres of alignment patterns of every version (ISO/IEC 18004, Annex E) |
| QrPictures.AlignmentPatterns | apps/api/src/auth/qr.ts:213-227 | the pictured pattern stands at every pair of centres but three |
| QrPictures.OnlyAtCentres | apps/api/src/auth/qr.ts:213-227 | and no module further than two from such a pair belongs to one |
| QrPictures.TimingLines | apps/api/src/auth/qr.ts:206-211 | row and column 6 alternate between the finders, dark on even places |
| QrPictures.VersionPicture | apps/api/src/auth/qr.ts:241-259 | both version blocks of versions 7 to 10 show the eighteen bits of the standard, written out, in their places |
| QrPictures.RestIsFree | apps/api/src/auth/qr.ts:200-252 | outside corners, lines, version blocks and alignment patterns no module is fixed |
| QrZigzag.CellOfStepOf | apps/api/src/auth/qr.ts:311-323 | every cell outside column 6 is reached by a step of the zigzag, for every odd size |
| QrZigzag.StepOfCellOf | apps/api/src/auth/qr.ts:311-323 | each step reaches a cell outside column 6, and no two steps the same one |
| QrZigzag.FreeCellAtRank | apps/api/src/auth/qr.ts:316-320 | a free cell stands in the list at its rank among the free cells on the way |
| QrZigzag.RankOfFreeCell | apps/api/src/auth/qr.ts:316-320 | every listed cell was free and stands at its rank, so none is listed twice |
| QrZigzag.Visit | apps/api/src/auth/qr.ts:315-321 | one visit writes the next bit into a free cell and leaves the others alone |
| QrZigzag.PlaceData | apps/api/src/auth/qr.ts:306-326 | the path fills exactly the free cells with the codeword bits in order, zeros after they run out |
| QrPictures.PathStarts | apps/api/src/auth/qr.ts:311-316 | the path starts in the lower right corner |
| QrPictures.PathGoesOn | apps/api/src/auth/qr.ts:311-323 | where it goes from each module: left, then right in the next row, upward and downward in turn, over column 6 at the timing line |
| QrRoom.Column6Fixed | apps/api/src/auth/qr.ts:312-312 | the skipped column holds no data module |
| QrRoom.TotalCodewordsTable | apps/api/src/auth/qr.ts:78-89 | data and error correction together are the standard's 26 to 346 codewords |
| QrRoom.FixedOrUsed | apps/api/src/auth/qr.ts:306-326 | every module of the grid is a fixed one or a data module, in every version |
| QrRoom.RoomForCodewords | apps/api/src/auth/qr.ts:306-320 | in every version the data modules have room for all codeword bits |
| QrFormat.FormatTable | apps/api/src/auth/qr.ts:262-269 | the remainder loop of the format field gives the eight words of the standard for level M |
| QrPictures.FormatPicture | apps/api/src/auth/qr.ts:262-269 | the fifteen bits of each of the eight words, written out (ISO/IEC 18004, Annex C) |
| QrPictures.FormatPlaces | apps/api/src/auth/qr.ts:277-292 | the thirty places they are written to, written out |
| QrFormat.FormatBits | apps/api/src/auth/qr.ts:262-269 | the method computes that word |
| QrFormat.FormatDistance | apps/api/src/auth/qr.ts:262-269 | the format words of two masks differ in at least seven bits |
| QrFormat.CopiesOf | apps/api/src/auth/qr.ts:280-291 | which module holds which format bit, for both copies |
| QrFormat.FormatIsReserved | apps/api/src/auth/qr.ts:277-292 | the format field is written only to modules reserved for it |
| QrFormat.PlaceFormat | apps/api/src/auth/qr.ts:277-292 | both copies of the field are written and no other module changes |
| QrFormat.MaskRoundTrip | apps/api/src/auth/qr.ts:262-269 | the mask number is read back from the field |
| QrMasks.MaskTable | apps/api/src/auth/qr.ts:294-303 | for every mask and module, whether it is turned over is what a picture of 12 by 12 modules says, repeated over the grid |
| QrMasks.MaskRepeats | apps/api/src/auth/qr.ts:294-303 | every mask repeats after twelve rows and after twelve columns |
| QrSymbol.FormatModulesFixed | apps/api/src/auth/qr.ts:231-239 | no reserved format module is a data module, so masking and format writing never meet |
| QrSymbol.FieldRoundTrip | apps/api/src/auth/qr.ts:277-303 | the mask is read back from the finished symbol |
| QrSymbol.ModulesRoundTrip | apps/api/src/auth/qr.ts:294-326 | turning the modules back over by the pictures of the masks and following the zigzag reads exactly the codeword bits |
| QrSymbol.SymbolRoundTrip | apps/api/src/auth/qr.ts:133-326 | unmasking by picture, zigzag, de-interleaving and parsing recover the payload from the finished symbol, for every version and every mask |
| QrEncoder.FlipModule | apps/api/src/auth/qr.ts:398-400 | one masked module, and no other |
| QrEncoder.Candidate | apps/api/src/auth/qr.ts:397-401 | a masked copy with its format field is the symbol for that mask; the original grid is untouched |
| QrEncoder.BestMask | apps/api/src/auth/qr.ts:395-404 | the grid kept is that of the first mask of least penalty among the eight |
| QrEncoder.PlaceAll | apps/api/src/auth/qr.ts:391-393 | after patterns and data no module is left unset |
| QrEncoder.QrMatrix | apps/api/src/auth/qr.ts:386-407 | fails exactly above 213 bytes; otherwise the grid is a least-penalty symbol, its data modules masked as the pictures say, and a reader recovers exactly those bytes |
| Base32.OldestFive | apps/api/src/auth/totp.ts:29-32 | five bits taken from the never-masked 32-bit accumulator are the five oldest unwritten ones |
| Base32.OldestEight | apps/api/src/auth/totp.ts:48-51 | the same for eight bits when decoding |
| Base32.Base32Encode | apps/api/src/auth/totp.ts:22-36 | the text is the bits of the bytes five at a time, zero-filled, in ceil(8n/5) characters |
| Base32.Base32Decode | apps/api/src/auth/totp.ts:38-54 | accepts exactly the texts whose characters, in capitals and without white space, padding and dashes, are in the alphabet, and yields the whole bytes of their bits |
| Base32.CleanFixesText | apps/api/src/auth/totp.ts:39-39 | an encoded text is its own clean form |
| Base32.CleanConcat | apps/api/src/auth/totp.ts:39-39 | typed text is cleaned character by character |
| Base32.CleanOne | apps/api/src/auth/totp.ts:39-39 | white space, dashes and padding go, and small letters become capitals |
| Base32.DigitsInOrder | apps/api/src/auth/totp.ts:20-20 | A to Z stand for 0 to 25 and 2 to 7 for 26 to 31, and no other character is a digit |
| Base32.KnownText | apps/api/src/auth/totp.ts:38-54 | the text MZ holds the byte 0x66, its highest bits first (RFC 4648, section 10) |
| Base32.RoundTrip | apps/api/src/auth/totp.ts:22-54 | decoding undoes encoding for bytes of any length, however the text was spaced, dashed, padded or lower-cased (RFC 4648, section 6) |
| Base32.SecretLength | apps/api/src/auth/totp.ts:57-59 | the generator's 20 bytes become 32 characters |
| TimeCodes.CounterBytes | apps/api/src/auth/totp.ts:63-67 | the counter written in two 32-bit halves is the counter in eight bytes |
| TimeCodes.EightBytes | apps/api/src/auth/totp.ts:63-67 | the first of the eight bytes counts most |
| TimeCodes.Hotp | apps/api/src/auth/totp.ts:62-76 | the code is always six digits, made from the digest at the place its last nibble names |
| TimeCodes.TruncatedIsRead | apps/api/src/auth/totp.ts:69-74 | the number is read from the four bytes at the place the last nibble names, most significant first, without the topmost bit (RFC 4226, section 5.3) |
| TimeCodes.KnownNumber | apps/api/src/auth/totp.ts:69-74 | the worked example of RFC 4226, section 5.4: the number in its digest is 0x50ef7f19 |
| TimeCodes.KnownCode | apps/api/src/auth/totp.ts:75-75 | and its code is 872921 |
| TimeCodes.PaddedRoundTrip | apps/api/src/auth/totp.ts:75-75 | the padded decimal form reads back as the number |
| TimeCodes.CodeIsUnique | apps/api/src/auth/totp.ts:62-76 | a counter has one code, the truncated digest modulo a million (RFC 4226, section 5.3) |
| TimeCodes.VerifyTotp | apps/api/src/auth/totp.ts:87-105 | a code is accepted exactly when a step of the window has it; the earliest is told, and a code that is not six digits or a secret that does not decode is refused |
| TimeCodes.OnlyDigitsConcat | apps/api/src/auth/totp.ts:88-88 | the digits of a typed code stay in their order |
| TimeCodes.OnlyDigitsOfOne | apps/api/src/auth/totp.ts:88-88 | and nothing but the ten digits is kept |
| TimeCodes.CodeLifetime | apps/api/src/auth/totp.ts:78-80 | a code is good from thirty seconds before its step begins until sixty seconds after |
| VirtualPaths.NormalForm | apps/api/src/files/paths.ts:25-27 | the normalised text is the text of the path's segments, worked out as a stack of names |
| VirtualPaths.NormalizeIdempotent | apps/api/src/files/paths.ts:25-32 | normalising twice is normalising once, and its pieces are real names, never dot segments |
| VirtualPaths.OneMoreSegment | apps/api/src/files/paths.ts:25-32 | empty segments and dots change nothing, two dots take the last name away if there is one, any other segment is a name below |
| VirtualPaths.NormalGrows | apps/api/src/files/paths.ts:25-27 | the normal form of the empty path is a slash, and a name adds itself to the normal form |
| VirtualPaths.NormalStays | apps/api/src/files/paths.ts:25-27 | a trailing slash or dot, and a name followed by two dots, leave it as it is |
| VirtualPaths.SegmentsOfShow | apps/api/src/files/paths.ts:30-32 | the segments of a shown path are the segments it was made from |
| VirtualPaths.StartsWithIsBelow | apps/api/src/files/paths.ts:55-55 | the text test "starts with base and a slash" holds exactly for what lies below the base |
| VirtualPaths.ResolveSafeIsInside | apps/api/src/files/paths.ts:44-59 | whatever names and volumes the table holds, a path leads to the folder of the share it names first and below, or to the error it should; the escape check never fires |
| VirtualPaths.FolderOfNames | apps/api/src/files/paths.ts:18-22 | for real names the folder of a share lies in its volume or, without one, in the files root |
| VirtualPaths.VirtualInShare | apps/api/src/files/paths.ts:62-73 | with no share inside another, the loop shows a real path under the share that owns it, if that has a real name |
| VirtualPaths.OutsideIsRoot | apps/api/src/files/paths.ts:62-73 | a real path inside no share is shown as the root |
| VirtualPaths.VirtualRoundTrip | apps/api/src/files/paths.ts:44-73 | toVirtual(resolveSafe(p)) is the normalised p |
| VirtualPaths.RealRoundTrip | apps/api/src/files/paths.ts:44-73 | resolveSafe(toVirtual(r)) is r for a real path inside a share exactly when the share's name is a real name |
| VirtualPaths.SlashedShareIsUnreachable | apps/api/src/system/config-backup.ts:385-400 | the failing input: a share "a/b", which a restored backup can make |
| FolderAccess.CanonicalPath | apps/api/src/db/acls.ts:54-58 | a rule path is the relative text of the segments the input denotes |
| FolderAccess.ClimbingIsRefused | apps/api/src/db/acls.ts:54-58 | a rule path is refused exactly when two dots stand anywhere in it |
| FolderAccess.RuleMeaning | apps/api/src/db/acls.ts:164-177 | at one folder the rule for the user decides; without one the most restrictive of the rules for groups of theirs, level by level; and without any, none |
| FolderAccess.DeepestRuleDecides | apps/api/src/db/acls.ts:160-179 | the deepest ancestor with a matching rule decides, and the share level when there is none |
| FolderAccess.RuleIsLocal | apps/api/src/db/acls.ts:163-178 | rows that differ in the rules of one folder decide alike everywhere outside that folder |
| FolderAccess.QueryKeepsRules | apps/api/src/db/acls.ts:153-158 | asking only for the ancestors' rows loses no rule that matters |
| FolderAccess.AncestorsOf | apps/api/src/db/acls.ts:61-66 | the chain lists every ancestor from the shallowest down to the path itself |
| FolderAccess.Walked | apps/api/src/db/acls.ts:160-180 | the top-down loop that keeps overwriting the level computes the same decision |
| FolderAccess.ApplyFolderAcls | apps/api/src/db/acls.ts:142-180 | closed share, share root, empty answer and the walk together are that decision; a climbing path is an error |
| FolderAccess.AclTable.SetAcl | apps/api/src/db/acls.ts:106-125 | one rule for a folder and subject is created or replaced; the share root and climbing paths are refused without a change |
| FolderAccess.UpsertedRows | apps/api/src/db/acls.ts:109-112 | the upsert keeps rules unique and changes only the row of its key |
| FolderAccess.SetRuleActs | apps/api/src/db/acls.ts:106-125 | a rule set for a user is that user's level at the folder from then on, whatever groups have rules there |
| FolderAccess.SetRuleIsLocal | apps/api/src/db/acls.ts:106-125 | a new rule on a folder changes nobody's access outside that folder and what is below it |
| FolderAccess.AclTable.PruneOrphans | apps/api/src/db/acls.ts:186-192 | exactly the rules whose subject is gone are dropped, and counted |
| FolderAccess.PruneKeepsRules | apps/api/src/db/acls.ts:182-192 | pruning changes no rule seen by an existing user and existing groups |
| FolderAccess.FoldGroupsMeaning | apps/api/src/db/shares.ts:226-226 | the loop over group rows ends at the greatest of the levels |
| FolderAccess.EffectiveAccessForShare | apps/api/src/db/shares.ts:212-229 | the method computes the share's level for the user |
| FolderAccess.EffectiveIsGreatest | apps/api/src/db/shares.ts:206-244 | that level is to write when any guest, own or group grant is, to read when any is and none is to write, and none otherwise |
| FolderAccess.ShortcutsAreSafe | apps/api/src/files/access.ts:24-51 | the shortcuts for shares without rules, share roots and empty queries never change the answer of pathAccess |
| FolderAccess.NoShareNoAccess | apps/api/src/files/access.ts:24-35 | the root is readable and never writable, administrators may do anything below it, and without a share of the first name others may do nothing |
| FolderAccess.AccessIs | apps/api/src/files/access.ts:33-51 | in a share, pathAccess told outright: what the grants allow when no folder on the way has a rule for the user, else what the deepest such folder says, and nothing without a grant |
| FolderAccess.RulesCannotOpenAShare | apps/api/src/db/acls.ts:149-149 | no folder rule lets anyone into a share nothing grants |
| AppGrants.EvictedMakesRoom | apps/api/src/db/app-grants.ts:78-91 | dropping the least recently used grant leaves room for one more |
| AppGrants.StepKeepsValid | apps/api/src/db/app-grants.ts:57-133 | picking, revoking and using grants keep: at most 32 per app and user, one per path, unique handles, normal paths |
| AppGrants.ReachableIsValid | apps/api/src/db/app-grants.ts:57-191 | so every state reachable from an empty table satisfies that |
| AppGrants.AtMostThirtyTwo | apps/api/src/db/app-grants.ts:57-91 | after any run no app holds more than 32 grants of one user, counted as a set of rows |
| AppGrants.PickAgain | apps/api/src/db/app-grants.ts:67-76 | a pick of a path the app has changes the kind of that row, and its mode only when it asks to write |
| AppGrants.PickAnew | apps/api/src/db/app-grants.ts:78-108 | any other pick adds one row; at 32 the least recently used row of the app and user goes, below that none |
| AppGrants.GrantsArePicked | apps/api/src/db/app-grants.ts:57-191 | after any run every row goes back to a pick of its app, user and path, and one that may be written to a pick that asked to write |
| AppGrants.RowOnlyWidens | apps/api/src/db/app-grants.ts:57-191 | over any run, as long as a row lives, it keeps its app, user and path, and its mode never narrows |
| AppGrants.InsideTest | apps/api/src/db/app-grants.ts:171-173 | the text test confines exactly to the granted path and what lies below it |
| AppGrants.GrantConfines | apps/api/src/db/app-grants.ts:163-184 | a handle of this app and user reaches a path exactly when it lies at or below the granted one and the user may read it, and writes exactly when user and grant both allow; any other handle reaches nothing |
| AppGrants.ManifestConfines | apps/api/src/db/app-grants.ts:186-190 | without a handle an app reaches exactly what the user may read, if its manifest lets it read, and writes where both the user and the manifest allow it |
| AppGrants.NeverMoreThanTheUser | apps/api/src/db/app-grants.ts:136-191 | by neither route does an app reach a path, or write one, that the user could not |
| AppGrants.GrantTable.GrantPath | apps/api/src/db/app-grants.ts:57-108 | a pick updates the row of its path or adds one, evicting when full |
| AppGrants.GrantTable.RevokeGrant | apps/api/src/db/app-grants.ts:123-128 | exactly the app's own grant of that handle for that user goes, and whether there was one is said |
| AppGrants.GrantTable.RevokeGrantForUser | apps/api/src/db/app-grants.ts:119-121 | the same by handle and user, whatever the app |
| AppGrants.GrantTable.RevokeAllForApp | apps/api/src/db/app-grants.ts:131-133 | uninstalling removes all of the app's grants and no other |
| AppGrants.GrantTable.ResolveGrant | apps/api/src/db/app-grants.ts:156-191 | a request is answered through its handle or, without one, by the permissions of the manifest, and only a used handle is touched |
| LoginAttempts.LockBounds | apps/api/src/db/login-attempts.ts:68-72 | a lockout comes exactly from the eighth failure on, lies between 60 s and 15 min, and never shrinks with more failures |
| LoginAttempts.LocksTable | apps/api/src/db/login-attempts.ts:68-72 | the lockouts one by one: none below eight failures, then 60, 120, 240, 480 and from the twelfth on 900 seconds |
| LoginAttempts.FailureCounts | apps/api/src/db/login-attempts.ts:59-72 | a failure counts on from the row, or from one again exactly when the last failure is more than 15 minutes ago |
| LoginAttempts.NextFailure | apps/api/src/db/login-attempts.ts:62-66 | from one failure of a run to the next the count climbs by one or, after more than 15 minutes, is one again |
| LoginAttempts.AttemptStore.LockoutRemainingSeconds | apps/api/src/db/login-attempts.ts:48-53 | the wait is positive exactly while the lock ends later, and is the rest of it in whole seconds, rounded up |
| LoginAttempts.AttemptStore.RecordFailure | apps/api/src/db/login-attempts.ts:59-85 | every column of the row after a failure, and the wait that goes with the count |
| LoginAttempts.AttemptStore.RecordSuccess | apps/api/src/db/login-attempts.ts:88-90 | a success forgets the account's row and no other |
| LoginAttempts.AttemptStore.LoginPassword | apps/api/src/auth/routes.ts:310-345 | each reply under its exact condition: locked, wrong, disabled or accepted; only a wrong password of an account that is not locked is counted, only an accepted one clears the count, and no other account is touched |
| LoginAttempts.AskThenAnswer | apps/api/src/auth/routes.ts:310-345 | with nothing in between, asking for the lockout and answering after the check make up the request as a whole |
| LoginAttempts.CountClimbs | apps/api/src/db/login-attempts.ts:59-66 | failures close together are counted one by one, and never forgotten in between |
| LoginAttempts.UnlockedIsWaitedOut | apps/api/src/db/login-attempts.ts:48-72 | an account that is not locked has waited out the locks of all its failures, not only of the last |
| LoginAttempts.GuessesTakeTime | apps/api/src/db/login-attempts.ts:59-85 | within a window the failures of passwords take at least the sum of the locks they bring, whatever fails between them |
| LoginAttempts.AtMostElevenPerWindow | apps/api/src/db/login-attempts.ts:48-85 | whatever failures of the second factor come between, any half-open 15 minutes hold at most eleven counted failures of passwords |
| LoginAttempts.EveryRun | apps/api/src/auth/routes.ts:310-413 | after every run in which passwords are checked one at a time, with second-factor codes and overrides at any moment, also during a check, the row tells of exactly the failures since it was last cleared, and those of passwords came as the lock permits |
| LoginAttempts.AtMostElevenGuesses | apps/api/src/auth/routes.ts:310-413 | so in every such run, refused and disabled attempts included, any half-open 15 minutes hold at most eleven wrong passwords since the counter was cleared |
| LoginAttempts.ElevenIsReached | apps/api/src/db/login-attempts.ts:48-85 | a run with eleven wrong passwords in such a window, so the bound is exact |
| LoginAttempts.ManyAtOnce | apps/api/src/auth/routes.ts:317-335 | without that order there is no bound: any number of passwords can ask for the lockout before the first is answered |
| SecondFactor.SignIn.PeekMfaTicket | apps/api/src/db/totp.ts:130-141 | a ticket at most five minutes old with fewer than five wrong codes is told and kept, any other dropped |
| SecondFactor.SignIn.FailMfaTicket | apps/api/src/db/totp.ts:144-148 | a wrong code is counted, and the fifth discards the ticket |
| SecondFactor.SignIn.ConsumeMfaTicket | apps/api/src/db/totp.ts:150-152 | the ticket is gone and no other |
| SecondFactor.SignIn.ConsumeRecoveryCode | apps/api/src/db/totp.ts:97-103 | spends an unused code of that user once |
| SecondFactor.SignIn.LoginPassword | apps/api/src/auth/routes.ts:310-362 | each reply under its exact condition: the right password of an enabled account buys a ticket exactly when its second factor is on, and a session exactly when it is not; nothing else touches the tables |
| SecondFactor.SignIn.LoginTotp | apps/api/src/auth/routes.ts:367-420 | each reply under its exact condition over the tables before: a session exactly for a live ticket of an account that exists, is not disabled and has its second factor on, with a code of a new step or an unused recovery code; wrong codes count against the account, and a session clears its count |
| SecondFactor.SessionIsEarned | apps/api/src/auth/routes.ts:367-420 | the step grants a session exactly then, and uses up the ticket with the time step or the recovery code |
| SecondFactor.NoSessionElse | apps/api/src/auth/routes.ts:367-420 | otherwise only tickets change: a wrong code on a good ticket is counted, the fifth and any other ticket goes |
| SecondFactor.SignIn.SetupTotp | apps/api/src/auth/routes.ts:522-534 | a new, unconfirmed secret exactly when the second factor is not on |
| SecondFactor.SignIn.EnableTotp | apps/api/src/auth/routes.ts:536-553 | each reply under its exact condition; a code of the new secret confirms it, is thereby used, and brings a fresh set of recovery codes |
| SecondFactor.SignIn.ReplaceRecoveryCodes | apps/api/src/db/totp.ts:76-82 | afterwards exactly the new codes of that user can be spent, and every other user's as before |
| SecondFactor.SignIn.NewCodes | apps/api/src/auth/routes.ts:555-567 | the set is replaced exactly for a user whose second factor is on and who gave the password |
| SecondFactor.SignIn.TurnOff | apps/api/src/auth/routes.ts:571-585 | with the password the secret, the recovery codes and the tickets of the user go, and none of their tickets is good again |
| SecondFactor.SignIn.SetUserDisabled | apps/api/src/db/users.ts:219-219 | switching an account off or on changes nothing else |
| SecondFactor.SignIn.DeleteUser | apps/api/src/db/users.ts:224-229 | with the account its enrolment, recovery codes and tickets go (the tables cascade, apps/api/src/db/index.ts:374-396), so that none of them works again |
| SecondFactor.SignIn.PruneEphemeral | apps/api/src/db/index.ts:774-778 | exactly the tickets older than ten minutes go |
| SecondFactor.StepKeeps | apps/api/src/auth/routes.ts:345-420 | every request keeps: live tickets match the history, the replay guard is the last accepted step, spent codes stay spent |
| SecondFactor.EveryRun | apps/api/src/auth/routes.ts:345-590 | so this holds after every sequence of requests, with accounts made, deleted, disabled and old tickets cleared away in between |
| SecondFactor.PruneChangesNothing | apps/api/src/db/index.ts:774-778 | clearing old tickets away at any earlier moment never changes what a ticket is worth |
| SecondFactor.SessionsAreEarned | apps/api/src/auth/routes.ts:367-420 | each second-factor session spends a ticket minted for the same user at most five minutes before, no ticket buys two, and none buys one after five wrong codes |
| SecondFactor.NobodyElseSignsIn | apps/api/src/auth/routes.ts:367-420 | in every run, whoever signs in with a second factor has at that moment an account that exists, is not disabled and has its second factor on |
| SecondFactor.DisabledStaysOut | apps/api/src/auth/routes.ts:381-384 | once an account is disabled nobody signs in to it until it is enabled or made anew, whatever tickets were bought before |
| SecondFactor.NoFactorNoSession | apps/api/src/auth/routes.ts:571-585 | once the second factor is off, or the account deleted, no second-factor session until a code confirms a new secret |
| SecondFactor.NewAccountIsBare | apps/api/src/db/users.ts:224-229 | an account made under the name of a deleted one has nothing of it |
| SecondFactor.StepsIncrease | apps/api/src/auth/routes.ts:387-395 | accepted time steps strictly increase within one enrolment (RFC 6238, section 5.2) |
| SecondFactor.RecoveryCodesWorkOnce | apps/api/src/db/totp.ts:97-103 | a recovery code works at most once until the set is replaced |
| OidcProvider.Provider.IssueCode | apps/api/src/oidc/store.ts:30-34 | the code is stored for sixty seconds with all it was issued for, nonce and time of sign-in included, and nothing else changes |
| OidcProvider.Provider.ConsumeCode | apps/api/src/oidc/store.ts:37-42 | the code is gone afterwards, and returned only before it expires |
| OidcProvider.Provider.IssueAccessToken | apps/api/src/oidc/store.ts:44-49 | the token is stored for an hour |
| OidcProvider.Provider.GetAccessToken | apps/api/src/oidc/store.ts:51-59 | an expired token is dropped, a live one told |
| OidcProvider.Provider.PruneOidc | apps/api/src/oidc/store.ts:62-66 | exactly the expired codes and tokens are removed, one by one |
| OidcProvider.PruneChangesNothing | apps/api/src/oidc/store.ts:36-66 | pruning at any earlier moment never changes what a code or token is worth |
| OidcProvider.Provider.PostAuthorize | apps/api/src/oidc/provider.ts:169-192 | a code is issued exactly when client and redirect URI are given, the client is registered with that URI, a user is signed in and the decision is allow; and what is stored for it |
| OidcProvider.Provider.PostToken | apps/api/src/oidc/provider.ts:194-242 | the token request as one atomic step: granted exactly when the code is live, its own client trades it with its redirect URI and its proof, and the user exists, with the ID token it signs; a code tried otherwise is spent all the same |
| OidcProvider.TradeIs | apps/api/src/oidc/provider.ts:194-242 | the step grants exactly then, and what it records and stores |
| OidcProvider.Provider.UserInfo | apps/api/src/oidc/provider.ts:244-257 | user and scope are told exactly for a token before its expiry whose user still exists |
| OidcProvider.StepKeeps | apps/api/src/oidc/provider.ts:169-258 | every request keeps: stored codes and tokens go back to decisions and trades in the history |
| OidcProvider.EveryRun | apps/api/src/oidc/provider.ts:169-258 | so this holds after every sequence of requests |
| OidcProvider.RedirectsAreRegistered | apps/api/src/oidc/provider.ts:169-192 | in every run a code only ever goes to a redirect URI registered for its client at that moment |
| OidcProvider.TokensAreJustified | apps/api/src/oidc/provider.ts:194-242 | each token answers a distinct earlier allow decision by the same user for the same client, redirect URI and scope, less than 60 s old, with the matching verifier whenever a challenge was recorded (RFC 6749, section 4.1.2; RFC 7636, section 4.6), and its ID token carries the nonce and the time of that decision |
| OidcProvider.AnswersAreAllowed | apps/api/src/oidc/provider.ts:244-257 | whatever a token tells about a user goes back to that user's own decision at most an hour and a minute before |
| Firewall.GenerateRuleset | apps/api/src/system/firewall.ts:150-288 | the lines pushed are the sets, the fixed rules and the configured rules in their order |
| Firewall.PushServices | apps/api/src/system/firewall.ts:248-268 | the nested loops emit one rule for each service, port and guard |
| Firewall.FirstMatchConcat | apps/api/src/system/firewall.ts:217-269 | first match over two lists is that of the first, else that of the second |
| Firewall.FixedRulesDecide | apps/api/src/system/firewall.ts:217-241 | what the rules of every ruleset decide: established, invalid, loopback, banned, ICMP and DHCP, in that order |
| Firewall.ServiceRulesPass | apps/api/src/system/firewall.ts:248-268 | the service rules accept exactly packets to an enabled port that meet a guard, and pass on all others |
| Firewall.ChainIsPolicy | apps/api/src/system/firewall.ts:150-288 | for every configuration, packet and ban list the chain's first match is the policy stated without any chain |
| Firewall.ServiceOnPort | apps/api/src/system/firewall.ts:32-85 | a port is served exactly by the services written out with it, the web interface always and the others when allowed |
| Firewall.WebStaysOpen | apps/api/src/system/firewall.ts:32-43 | whatever services are allowed, a new connection to port 80 or 443 that is not banned is accepted, from trusted networks only when services are limited to them |
| Firewall.AlwaysWellDeclared | apps/api/src/system/firewall.ts:174-269 | every set a rule looks into is declared once and for its family, and no listed set is empty or of mixed families |
| Firewall.LoadsWithoutConflict | apps/api/src/system/firewall.ts:173-196 | the ruleset loads exactly when no two trusted networks of one family conflict, since the interval sets are declared without auto-merge |
| Firewall.NestedNetworksDoNotLoad | apps/api/src/system/firewall.ts:173-196 | the failing input: a network and one inside it, which no check of the settings refuses |
| Firewall.EnablingNeverDrops | apps/api/src/system/firewall.ts:151-153 | switching a service on never drops a packet accepted before |
| Firewall.RestrictingNeverAccepts | apps/api/src/system/firewall.ts:157-157 | limiting services to trusted networks never accepts a packet dropped before |
| Firewall.NewNetworkDrops | apps/api/src/system/firewall.ts:155-157 | naming one more trusted network drops a packet accepted before exactly when it is the first one under that limit and the packet came to a service from outside it |
| Firewall.FirstNetworkShutsOut | apps/api/src/system/firewall.ts:155-157 | the failing input: a new connection to port 22 from outside the first network named under the limit |
| Calendar.MonthLengths | apps/api/src/db/system-tasks.ts:99-99 | the closed-form calendar has the Gregorian month lengths, leap years included |
| Calendar.KnownDates | apps/api/src/db/system-tasks.ts:87-99 | the calendar is anchored: day 0 is Thursday, 1 January 1970, and 29 February 2000 was a Tuesday |
| Calendar.MonthIsUnique | apps/api/src/db/system-tasks.ts:97-105 | each day lies in one month only, before 1970 as well |
| Calendar.FourHundredYears | apps/api/src/db/system-tasks.ts:75-109 | the calendar repeats after 400 years, which are whole weeks |
| Schedule.OncePerMonth | apps/api/src/db/system-tasks.ts:94-107 | every month has exactly one day of a monthly schedule: short months are not skipped and the day never slips into the next |
| Schedule.OccursIs | apps/api/src/db/system-tasks.ts:75-109 | an occurrence told by clock and calendar alone: hour and minute, weekday by seven with Sunday 0, day of the month between the first and the last there is |
| Schedule.Place | apps/api/src/db/system-tasks.ts:98-101 | the day is clamped to the length of the month the date stands in |
| Schedule.NextTimeIsNext | apps/api/src/db/system-tasks.ts:75-109 | the closed form is the first occurrence strictly after the start, with none between |
| Schedule.NextIsUnique | apps/api/src/db/system-tasks.ts:75-109 | there is only one such instant |
| Schedule.KnownMonthly | apps/api/src/db/system-tasks.ts:94-107 | the 31st at half past three, asked before and after that time on 29 February 2000 |
| Schedule.KnownWeekly | apps/api/src/db/system-tasks.ts:87-93 | Sundays at three, asked when the clock started |
| Schedule.NextRun | apps/api/src/db/system-tasks.ts:75-109 | the date object moved step by step ends at that occurrence |
| Schedule.NextIsMonotone | apps/api/src/db/system-tasks.ts:75-109 | a later start never leads to an earlier run |
| Schedule.NothingIsSkipped | apps/api/src/db/system-tasks.ts:75-109 | going from run to run reaches every occurrence |
| Schedule.NextIsSoon | apps/api/src/db/system-tasks.ts:75-109 | the next run is at most a day, a week or 62 days away |
| SystemTasks.TaskTable.CreateSystemTask | apps/api/src/db/system-tasks.ts:132-160 | a new task is armed for the first occurrence after now |
| SystemTasks.TaskTable.UpdateSystemTask | apps/api/src/db/system-tasks.ts:168-209 | fields left out stay, and the run moves only when the schedule moved or the task was switched back on, then to the first occurrence after now, column by column |
| SystemTasks.UpdatedIs | apps/api/src/db/system-tasks.ts:168-209 | what a change writes, column by column |
| SystemTasks.TaskTable.DeleteSystemTask | apps/api/src/db/system-tasks.ts:211-213 | the task is gone and no other, and whether there was one is said |
| SystemTasks.TaskTable.MarkTaskStarted | apps/api/src/db/system-tasks.ts:230-246 | starting moves the run forward before the work begins |
| SystemTasks.StartedIs | apps/api/src/db/system-tasks.ts:230-246 | starting notes the moment, clears the output and arms the task for the first occurrence after it |
| SystemTasks.TaskTable.RunTaskNow | apps/api/src/admin/routes.ts:755-768 | by hand any task that is not running is started, due or not and enabled or not; otherwise nothing changes |
| SystemTasks.TaskTable.MarkTaskFinished | apps/api/src/db/system-tasks.ts:248-254 | finishing stores status and the first 4000 characters of output, and leaves the run alone |
| SystemTasks.TaskTable.ClearInterruptedTasks | apps/api/src/db/system-tasks.ts:263-269 | after a restart exactly the running tasks are marked as interrupted |
| SystemTasks.DueMeansComeRound | apps/api/src/db/system-tasks.ts:216-221 | an enabled task is due exactly when its schedule has come round since it was armed |
| SystemTasks.StartedIsNotDue | apps/api/src/db/system-tasks.ts:230-246 | a task just started is not due again before its next occurrence |
| SystemTasks.SameScheduleKeepsRun | apps/api/src/db/system-tasks.ts:179-189 | renaming a task, or sending the schedule it has, never moves its run |
| SystemTasks.NoCatchingUp | apps/api/src/db/system-tasks.ts:189-189 | a task whose time passed while it was off does not run late when switched on |
| SystemTasks.RunNowKeepsSchedule | apps/api/src/admin/routes.ts:754-768 | starting a task by hand leaves its next run alone exactly while that is still to come |
| SystemTasks.DueRunIsSkipped | apps/api/src/admin/routes.ts:754-768 | the failing input: a due task of three o'clock started by hand at half past three is put off to the next night |
| SystemTasks.EveryRun | apps/api/src/db/system-tasks.ts:132-269 | every run, with starts by the timer and by hand, keeps: stored runs are occurrences of the present schedule, after every start so far and no further than if armed now, and the last run is that of the last start |
| SystemTasks.RunsAreSpaced | apps/api/src/db/system-tasks.ts:132-269 | between any start of a task and a later one by the timer its schedule came round, through edits, switching off and on, and restarts |
| SystemTasks.DistanceIsSinceLastRun | apps/api/src/admin/routes.ts:755-768 | a start by the timer or by hand comes after an occurrence since every earlier start exactly when the task never ran or its schedule came round since the stored last run |
| SystemTasks.DueIsTheTest | apps/api/src/db/system-tasks.ts:216-221 | from schedule and next run alone, whatever led to them and whatever the last run was, that distance of an enabled task is certain exactly when it is due |
| SystemTasks.ManualStartsMayCrowd | apps/api/src/admin/routes.ts:755-768 | the failing input: created, run now, finished and run now again five seconds later |
| NamedTable.RowAfter | apps/api/src/system/config-backup.ts:289-320 | merging touches only the first row of a name, and leaves there what the last entry of that name says |
| NamedTable.Settled | apps/api/src/system/config-backup.ts:289-320 | after the merge every named entry has its row |
| NamedTable.AppendedRow | apps/api/src/system/config-backup.ts:305-319 | a row added by a merge is made from the first entry of its name |
| NamedTable.RowsAreCounted | apps/api/src/system/config-backup.ts:289-320 | what a merge counts as new is by how many rows the table grew, and every other named entry is an update |
| NamedTable.PassTwice | apps/api/src/system/config-backup.ts:289-320 | merging the same entries again changes nothing |
| NamedTable.PassFromEmpty | apps/api/src/system/config-backup.ts:305-319 | on an empty table entries of distinct names make one row each, in order |
| NamedTable.TryGoesThrough | apps/api/src/system/config-backup.ts:289-320 | a merge whose new rows fit goes through exactly when every named entry fills the columns that must not be null |
| NamedTable.TryTwice | apps/api/src/system/config-backup.ts:246-476 | a merge that went through goes through again, and changes nothing |
| NamedTable.PlanIsRight | apps/api/src/system/config-backup.ts:203-224 | preview and merge count the same entries, and agree on how many are new exactly when no entry repeats a new name |
| ConfigBackup.RestoreTwice | apps/api/src/system/config-backup.ts:246-476 | a backup that was applied applies again, and leaves what it left, for any database and whatever fresh ids are at hand |
| ConfigBackup.MissingVolumeAborts | apps/api/src/system/config-backup.ts:361-394 | a named share entry without a volume aborts the transaction, and nothing of the backup stays |
| ConfigBackup.NullVolumeAborts | apps/api/src/system/config-backup.ts:361-394 | the failing input: a backup of one share without a volume, on an empty database |
| ConfigBackup.AccountsStay | apps/api/src/system/config-backup.ts:280-320 | whether the restore goes through or not, no account goes or changes id, name, password or colour; one the backup does not name does not change at all |
| ConfigBackup.GroupsStay | apps/api/src/system/config-backup.ts:335-357 | the same for groups and their members |
| ConfigBackup.SharesStay | apps/api/src/system/config-backup.ts:385-460 | the same for shares, their grants and their folder rules |
| ConfigBackup.NoWayIn | apps/api/src/system/config-backup.ts:270-320 | accounts added are disabled and have no password, and after a restore that went through the named accounts without a password are disabled |
| ConfigMeaning.RestoredAccount | apps/api/src/system/config-backup.ts:280-302 | after a restore that went through, the account a named entry finds says what the last entry of that name says: display name, e-mail, role and, with a password, whether it is disabled |
| ConfigMeaning.AddedAccount | apps/api/src/system/config-backup.ts:304-319 | a new account has the name and colour of the first entry of its name, no password, and is disabled |
| ConfigMeaning.RestoredGroup | apps/api/src/system/config-backup.ts:335-357 | the group a named entry finds has that entry's description and exactly the accounts its names find |
| ConfigMeaning.AddedGroup | apps/api/src/system/config-backup.ts:335-348 | a new group has the name of the first entry of that name |
| ConfigMeaning.RestoredShare | apps/api/src/system/config-backup.ts:361-460 | the share a named entry finds says, column by column, what that entry says, with its grants and rules and no others |
| ConfigMeaning.AddedShare | apps/api/src/system/config-backup.ts:385-400 | a new share has the name of the first entry of that name |
| ConfigMeaning.RuleIsStoredFor | apps/api/src/system/config-backup.ts:431-459 | whom and which path a folder rule is stored for, and that climbing paths and the share root are left out |
| ConfigMeaning.SettingsAfter | apps/api/src/system/config-backup.ts:264-268 | settings of the backup replace those of the same key, except mail, dynamic DNS and disk alert state, which stay as they were |
| ConfigMeaning.CountersTell | apps/api/src/system/config-backup.ts:246-476 | created is by how many rows each table grew, and a name is flagged exactly when its account stands without a password afterwards |
| ConfigMeaning.FoldIsAscii | apps/api/src/system/config-backup.ts:271-271 | names are one name when they differ only in the case of ASCII letters |
| ConfigMeaning.ExportedAccount | apps/api/src/system/config-backup.ts:57-74 | an export says of each account its name, display name, e-mail, role, flag and colour |
| ConfigMeaning.ExportedShare | apps/api/src/system/config-backup.ts:75-124 | an export says of each share its columns, levels by their names, and each account's grant |
| ConfigIntegrity.RestoreKeepsWellFormed | apps/api/src/system/config-backup.ts:246-476 | whatever the backup says, the names of accounts, groups and shares and all ids stay unique and every reference points at a row |
| ConfigIntegrity.CommitsIff | apps/api/src/system/config-backup.ts:246-476 | on a well-formed database the transaction goes through exactly when every named share gives a volume (the column takes no null, apps/api/src/db/index.ts:199-204), and otherwise leaves no trace |
| ConfigIntegrity.SecondRestoreChangesNothing | apps/api/src/system/config-backup.ts:246-476 | applying any backup twice leaves what applying it once leaves, gone through or not |
| ConfigStore.Tables.ExportConfig | apps/api/src/system/config-backup.ts:57-167 | the export lists every row once, references by name, leaving out secret settings and rules whose subject has gone |
| ConfigStore.ExportMembers | apps/api/src/system/config-backup.ts:126-137 | the names listed are those of the members |
| ConfigStore.ExportGrants | apps/api/src/system/config-backup.ts:75-114 | each grant is listed under the name of its subject |
| ConfigStore.ExportRules | apps/api/src/system/config-backup.ts:88-124 | each rule is listed under its subject's name unless the subject has gone |
| ConfigRoundTrip.RoundTrip | apps/api/src/system/config-backup.ts:57-476 | restoring an export onto an empty database goes through, and exporting again says the same, up to order and with every account disabled, exactly when no two groups and no two shares have one name ignoring case |
| ConfigRoundTrip.CaseTwinsMerge | apps/api/src/system/config-backup.ts:385-400 | the failing input: the shares "Media" and "media", which the API creates because it looks names up exactly (apps/api/src/db/shares.ts:93-95) |
| ConfigStore.Tables.PlanRestore | apps/api/src/system/config-backup.ts:170-238 | the preview counts new and known names and changes nothing |
| ConfigStore.PlanMatchesUsers | apps/api/src/system/config-backup.ts:203-209 | the preview takes every user entry for new or known as the restore will exactly when no new name is repeated and its lower-casing finds the same names known, and then its counts are those of the restore |
| ConfigStore.PlanMatchesGroups | apps/api/src/system/config-backup.ts:218-224 | the same for groups |
| ConfigStore.PlanMatchesShares | apps/api/src/system/config-backup.ts:210-216 | the same for shares |
| ConfigStore.CountsWithRepeats | apps/api/src/system/config-backup.ts:203-224 | where names are found known alike, the preview counts as many entries as the restore, never takes a new one for an update, and counts right exactly when no new name is repeated |
| ConfigStore.RepeatIsMiscounted | apps/api/src/system/config-backup.ts:210-216 | the failing input: a new share named twice |
| ConfigStore.UmlautIsMiscounted | apps/api/src/system/config-backup.ts:210-216 | the failing input: a share "Ämter" previewed where it was exported, since SQLite lower-cases ASCII only |
| ConfigStore.PlanMatchesSettings | apps/api/src/system/config-backup.ts:185-185 | the settings count is right exactly when the backup holds no excluded key |
| ConfigStore.ExcludedIsMiscounted | apps/api/src/system/config-backup.ts:185-185 | the failing input: a backup that holds one excluded key |
| ConfigStore.Tables.RestoreSettings | apps/api/src/system/config-backup.ts:264-268 | settings are overwritten one by one, excluded keys skipped and not counted |
| ConfigStore.Tables.RestoreUsers | apps/api/src/system/config-backup.ts:289-320 | the loop merges the users as `ConfigMeaning.RestoredAccount` tells, counts what it created and updated, and lists who needs a password |
| ConfigStore.Tables.RestoreGroups | apps/api/src/system/config-backup.ts:335-357 | the loop merges the groups and replaces their members by the accounts found |
| ConfigStore.Tables.RestoreShares | apps/api/src/system/config-backup.ts:361-460 | the loop merges the shares and replaces their grants and folder rules, and stops where a volume is missing |
| ConfigStore.RestoreGrants | apps/api/src/system/config-backup.ts:408-429 | the loop keeps a grant for each subject found; names without an account or group are skipped |
| ConfigStore.FirstGrantStays | apps/api/src/system/config-backup.ts:408-429 | the level kept for a subject is that of the first entry whose name finds it, to read for "ro" and to write for anything else, and any such entry leaves one |
| ConfigStore.RestoreRules | apps/api/src/system/config-backup.ts:431-459 | the loop keeps a rule for each subject and folder; rules on missing subjects, bad paths or the share root are skipped |
| ConfigStore.LastRuleStays | apps/api/src/system/config-backup.ts:431-459 | the level kept for a subject on a folder is that of the last entry that speaks of them, "rw", "ro" or else none |
| ConfigStore.RuleOnlyWhereNamed | apps/api/src/system/config-backup.ts:431-459 | a rule is kept exactly for the subjects and folders some entry speaks of |
| ConfigStore.Tables.ApplyRestore | apps/api/src/system/config-backup.ts:246-476 | settings, users, groups and shares are merged in that order, with the counters that go with it, or all is rolled back |
| ConfigStore.FlaggedHaveNoPassword | apps/api/src/system/config-backup.ts:301-318 | after a restore that went through the accounts flagged are exactly the named ones without a password |
| ConfigStore.RestoreMembers | apps/api/src/system/config-backup.ts:350-356 | names without an account are skipped, and the members are the accounts found |

## Left out

- QrEncoder.QrMatrix: the penalty score (apps/api/src/auth/qr.ts:328-384) is a parameter, any function of the grid; which mask is drawn then follows from it, and the theorems hold for all eight. Text becomes bytes before the model starts.
- QR: the SVG drawing, and versions above 10 and other levels, which the encoder does not have.
- ReedSolomon.RsGenerator: for degrees up to 512, the size of the table; the encoder uses at most 26.
- QrCodewords.SplitBlocks: the two nested loops over groups run as ListBlocks followed by SplitBlocks, and codewords are collected in a sequence.
- Base32.Base32Decode: of the capital letters Unicode knows only those that lead into the alphabet are written out, because every other one is refused either way; errors carry no text.
- TimeCodes.VerifyTotp: HMAC-SHA1 is a parameter that answers twenty bytes, steps stay in the range in which the source's numbers are exact, and that the comparison takes constant time is not modelled. Enrolment links and the making of recovery codes are left out.
- VirtualPaths.ResolveSafeIsInside: symbolic links, volumes that are not mounted and the file system itself are not modelled. validateName (apps/api/src/files/paths.ts:76-82), which the API applies to new shares, appears only as the condition on names in the round trips.
- VirtualPaths.RealRoundTrip: for paths without a NUL character, which no file system has.
- FolderAccess: listing and deleting rules, the cached per-request copies, and quotas, NFS rules and Time Machine flags of shares; SQL tables are sequences and maps with their declared keys.
- AppGrants.GrantTable.GrantPath: of several grants equally long unused the first row goes; the database leaves that open. Who may call the routes, and what a manifest grants, is decided elsewhere (apps/api/src/apps/routes.ts:912-929).
- LoginAttempts.AtMostElevenPerWindow: the runs (`LoginAttempts.AtMostElevenGuesses`) check one password at a time; that several at once are not bounded by the lockout is `LoginAttempts.ManyAtOnce`. Failures of the second factor are in the runs but not bounded, since that step does not ask for the lockout. Rate limits and the bans of addresses are separate.
- SecondFactor: hashing and the check of a time code are parameters of the protocol (the check itself is `TimeCodes.VerifyTotp`); the password check itself, passkeys, cookies and session rows are outside; tickets are told apart by their value, not its hash, and accounts by their folded user name, not their id. The stored times of recovery codes are a used mark.
- OidcProvider.TokensAreJustified: codes are fresh random values; signing, the profile claims and the authorization page are outside, and so is the deletion of users between request and answer, except as the check that the user exists.
- Firewall: addresses are numbers, and what a network covers and which networks conflict are parameters, so parsing and validating networks (apps/api/src/system/firewall.ts:119-143) is outside, as are bans and their timeouts, comments between the rules, and whatever else than set declarations could keep nft from loading a ruleset.
- Schedule.NextRun: a plain civil clock without daylight saving or time zones; hours and minutes are those the API accepts.
- SystemTasks.RunsAreSpaced: the work of a task, its kinds and the limit of twenty tasks are outside; the timer may start a due task at any moment and need not, so that it also skips a task still in flight (apps/api/src/system/task-runner.ts:153-164) is covered; by hand a task is started at any moment.
- ConfigBackup.RestoreTwice: creation times are not in the model, and members, grants and rules are kept inside their group or share. Warnings, the count of folder rules, OIDC clients, values of the wrong JSON type, the format number and the exclusion notes are left out. Two accounts, groups or shares found by one name are told apart by row order.
- ConfigStore.Tables.ExportConfig: lists come in the order of the rows; the sorting of the export is left out, which is why it is compared up to order.
- ConfigStore.Tables.PlanRestore: how the preview lower-cases names is a parameter of which the theorems assume one thing, that the case of ASCII letters makes no difference to it.
- NFS, Docker, virtual machines, ACME, dynamic DNS, the app repository, notifications and the web client: mostly calls to other programs and machines.
