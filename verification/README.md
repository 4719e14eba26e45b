# tessl: verified models

Dafny 4.11 models of the parts of tessl whose correctness the code itself decides, with proofs about every input, every
run or every interleaving. `dafny verify dfyconfig.toml` checks the whole project.

## What is modelled

- **Attention** (`OnlineSoftmax`, `AttnMask`, `AttnFa2`, `AttnRows`, `AttnTiled`, `Butterfly`, `Lanes`, `Layout`, and the
  grids of two kernels in `AttnRowsGrid` and `AttnTiledGrid`, and all of it over the elements of the flat buffers in `AttnElements`). The blocked, streamed and tiled kernels, in place on their threadgroup
  arrays, equal one plain masked softmax. Numbers are reals; `exp` is any positive, increasing function with exp(0) = 1 and
  exp(a + b) = exp(a) exp(b). A phase between two barriers runs its lanes in any order; for the blocked kernel `AttnLanes`
  and `AttnLaneRuns` model each lane by itself, one memory access a step, with the barriers as steps: no two lanes race, none
  gets stuck, and every complete run has the same result. `-FLT_MAX` is any constant; that no live score lies below it is
  required only by the tiled kernel and where a theorem speaks of the maximum. The output conversion and the rounding of P
  are parameters.
- **JPEG writers** (`Jpeg*`). The baseline and the lossless writer as they print bits, against decoders written from
  ITU-T T.81 (sections A.2, B.2, C.2, F.1.2, F.2.2, H.1.2, H.2); each file is read back exactly, from its bytes alone.
- **Quantized dot products** (`Q4Dot`, `Q4Gemv`, `Q4Gemm`, `Q4Route`). The pointer walk, the indexed form and both weight
  layouts refine one dequantized dot product; routing gives each row one owner.
- **Tiled GEMM and cross-entropy** (`TileWalks`, `GemmCoop`, `CeRow`, `CeLanes`, `CeWalk`, `CeCall`). Every walk is a bijection onto the grid;
  running all threadgroups in any order gives the whole result. The chunked walks give the unchunked loss and gradients.
- **Schedulers and caches** (`AirCache`, `BertBatch`, `CapiGuard`, `CapiText`, `CapiCache`). The compile cache over histories of
  builds and crashes, the greedy batch splitter and the padded forward, the C boundary and its workspace cache.
- **State machines** (`ReduceTree`, `ReduceTotal`, `CbLedger`, `CbRuns`). The two-level reduction as a machine of lanes
  around barriers, and the ping-pong replay ledger.
- What several modules share is in `Common`.

Code that changes state is modelled as methods over arrays and fields, proved against functions or predicates about which
the theorems are stated. Tables, compilers, activations, `exp`, waits and executes of the GPU enter as parameters. Every
lemma turns automatic induction off, so each proof is the one written.

## Where the code and its promises differ

- `keep_mask` calls itself the kernels' rule verbatim; with window 0 it keeps nothing where the kernels keep everything
  up to the row's position (`AttnMask.BenchWindowAgreesIffNonZero`).
- The reduction header promises the total in every lane; a launch whose last simdgroup has fewer lanes than there are
  simdgroups leaves that simdgroup short, since `simd_sum` covers only the lanes it has. The host's power-of-two launches
  never do this (`ReduceTotal.TotalIffCovers`, `ReduceTotal.HostLaunchTotal`).
- The baseline script says any coefficient block can be written; its run/size symbol overflows past category 15, and
  exactly the blocks within category 15 read back (`JpegBlock.ReadBackIffFits`, `JpegBlock.CategorySixteenCollides`).
- A file of one component with sampling factors above 1 is ordered by MCU, not by rows
  (`JpegLoneScan.LoneOrder`); such a file round-trips under the writer's own order.
- `ce` says a refused call keeps the cached workspace and allocates nothing. It does exactly when a check before the cache
  refuses it, or the cached workspace fits, or there is none and none can be made (`CapiCache.TesslRuntime.Ce`,
  `CapiCache.RefusedKeepsIff`). Two ways to lose it: `CeWorkspace::new` refuses a width that is not a multiple of 8
  (`CapiCache.TwelveWideLosesIt`), and `cross_entropy_rows` refuses a scale that is not finite, or overlapping or aliasing
  outputs, after the rebuild (`CapiCache.BadScaleReplacesIt`). The 32-build bound then needs the number of workspaces lost
  (`CapiCache.RebuildBound`, `CapiCache.RebuildBoundReached`).
- A failed wait is reported at the end of the message, which is what a short buffer cuts off, and a NUL inside the
  message hides what follows it (`CapiGuard.ReadWholeIff`, `CapiGuard.WaitReportCut`).
- The ledger's comment says a whole step ran on the peer before an InFlight slot is recycled; not when the first step after
  the claim faces the claimed slot, because the claim named the active slot or a flip or a hand-made recording turned to it
  (`CbRuns.PeerRanIff`, `CbRuns.RecycledAtOnce`, `CbRuns.RecycledAfterFlip`).
- Slot generations are recording numbers modulo 2^64, so the 2^64th starts again at 0 (`CbRuns.RisesIff`,
  `CbRuns.WrapReached`).

## Model

| member | source | states |
|---|---|---|
| OnlineSoftmax.RescaleOrZero | kernels/attn_fa2.h:206-222 | The kernels' rescale factor (exactly 0 while no live key was seen, exp(m - m') after) carries both running sums from shift m to shift m'. |
| OnlineSoftmax.NormaliseAnyShift | kernels/attn_fa2.h:248-260 | The normalised quotient does not depend on the shift the sums were taken against; an empty row gives 0. |
| OnlineSoftmax.SeenMeansAtLeastOne | kernels/attn_rows.h:38-44 | Once a row has seen a live key its running maximum is one of its live scores and its sum is at least 1, so `l > 0` is exactly "has seen a key". |
| OnlineSoftmax.ReferenceIsAttend | bench/flash_attn_torch_mlx.py:57-86 | The script's masked softmax (maximum, exponentials, guarded inverse, zeros on a dead row) is the quotient of the two plain sums. |
| OnlineSoftmax.AnyOrder | kernels/attn_rows.h:45-59 | Distinct visits that reach every index with a nonzero term sum the whole range, in any order. |
| OnlineSoftmax.VisitOrderIrrelevant | kernels/attn_rows.h:1-10 | Attention over a row is the same in every visiting order, with or without visits to masked keys. |
| AttnMask.KernelMaskIsKeep | kernels/attn_fa2.h:122-139 | The kernel's unsigned bounds k_lo <= k <= k_hi hold exactly for the keys the rule of the header keeps, for every window and offset. |
| AttnMask.BenchWindowAgreesIffNonZero | bench/flash_attn_torch_mlx.py:47-54 | The script's mask, given the launch's own window, equals the kernel's on every key of every row if and only if the window is not 0; its comment claims it always does. |
| AttnMask.SkippedBlockIsDead | kernels/attn_fa2.h:145-152 | A K block skipped by the union window holds no key that any row of the tile keeps. |
| AttnMask.Problem.KvInBounds | kernels/attn_fa2.h:72-79 | Every key and value address of a live position lies inside the K/V buffers. |
| Layout.RowAddrIsRowMajor | kernels/attn_fa2.h:74-79 | The head-base-plus-stride address of row (b, t, h) is its row-major index in a [B, T, H, D] tensor. |
| Layout.RowAddrInjective | kernels/attn_fa2.h:74-79 | Two rows share an address only if they are the same (b, t, h). |
| Layout.SplitBatchHead | kernels/attn_fa2.h:69-73 | Every batch-and-head pair is one value of bh, as bh % H and bh / H. |
| Layout.HeadKvOf | kernels/attn_fa2.h:72-73 | Key/value head kv is read by the query heads kv * (H / Hkv) up to the next multiple, and by no others. |
| Lanes.Owners | kernels/attn_fa2.h:162-164 | In a loop strided by tptg each iteration belongs to exactly one lane, and a lane's own iterations are a whole stride apart. |
| Lanes.StridedStore | kernels/attn_fa2.h:154-173 | The strided store fills every cell of the tile exactly with its value, whichever lane moves next, for every tptg > 0. |
| AttnFa2.AddScores | kernels/attn_fa2.h:176-185 | One 32-wide slice of Q.K^T added into every row's scores extends each score to the next 32 head coordinates, lanes interleaved in any order. |
| AttnFa2.BlockScores | kernels/attn_fa2.h:162-186 | After the slice loop every score of the block is its full dot product, starting from whatever the tile held. |
| AttnFa2.MaskScores | kernels/attn_fa2.h:189-196 | The block maximum bounds every live score, and each live score is left scaled in place. |
| AttnFa2.WeighScores | kernels/attn_fa2.h:211-218 | Scores become exponential weights against the new maximum, and their sum is the block's sum. |
| AttnFa2.RowPass | kernels/attn_fa2.h:188-224 | One row's pass keeps: sum and accumulator hold exactly the keys so far against the new maximum, and no other row changes. |
| AttnFa2.SoftmaxPass | kernels/attn_fa2.h:188-225 | The same for every row of the tile, lanes in any order. |
| AttnFa2.BlockValues | kernels/attn_fa2.h:227-245 | The P.V loops add the block's weighted values to every coordinate of every accumulator row. |
| AttnFa2.BlockBounds | kernels/attn_fa2.h:140-144 | The block count covers exactly the live keys: block kb exists if and only if it starts before Tkv, and the next starts where it ends. |
| AttnFa2.SkipBlock | kernels/attn_fa2.h:145-152 | Skipping a block leaves every row's state that of the longer prefix. |
| AttnFa2.StreamBlocks | kernels/attn_fa2.h:142-246 | After the block loop each row's sum and accumulator hold exactly its live keys. |
| AttnFa2.StoreRows | kernels/attn_fa2.h:248-260 | The closing loop stores each row and leaves every other output element as it was. |
| AttnFa2.TileValues | kernels/attn_fa2.h:89-105 | A tile's rows become the plain masked attention; with no history they become zeros without streaming. |
| AttnFa2.FlashAttnFa2Tiled | kernels/attn_fa2.h:33-261 | One threadgroup: the rows it owns become exactly the plain masked softmax attention, every other output element is unchanged, for every Tq, Tkv, offset, window, BR, BC and tptg > 0. |
| AttnFa2.Dispatch | kernels/attn_fa2.h:66-87 | All threadgroups in any order, repeats included, on at least BR lanes: every output element is the plain masked attention. |
| AttnFa2.GridOwner | kernels/attn_fa2.h:68-87 | Every (b, h, t) row belongs to a grid point that has a lane for it. |
| AttnLanes.AddressesDiffer | kernels/attn_fa2.h:31-32 | Two words of a threadgroup array, or of the output, are two addresses inside it. |
| AttnLanes.StepReadsOnly | kernels/attn_fa2.h:107-260 | A lane's next step depends on memory only through the words it is said to read, so the footprints the race theorem speaks of are complete. |
| AttnLaneRuns.StepKeeps | kernels/attn_fa2.h:107-260 | Lanes at their own pace, one memory access a step, every branch evaluated by each: whichever moves next, and whenever a barrier opens, every lane holds what its place in the body says, all lanes are between the same two barriers, and no output outside the group's rows changes. |
| AttnLaneRuns.AccessTouches | kernels/attn_fa2.h:107-260 | Every access is inside its array, to a word that is the lane's own in this phase or that nobody writes in it; a write is to an own one. |
| AttnLaneRuns.NoRace | kernels/attn_fa2.h:154-245 | In every run a word one lane writes is not read or written by another, before or after, unless every lane passed a barrier between. |
| AttnLaneRuns.NeverStuck | kernels/attn_fa2.h:112-245 | Until every lane is through some step is enabled: when no lane can move alone, all are at the same barrier of the same loop turn. |
| AttnLaneRuns.CompleteRunIsPlain | kernels/attn_fa2.h:33-261 | Every complete run, in any interleaving and from any contents of threadgroup memory, leaves the plain masked attention in the rows the threadgroup owns and every other output element as it was. |
| Butterfly.Round | kernels/attn_rows.h:28-30 | One xor round over power-of-two lanes turns a repetition of a pattern into the repetition of its two halves combined. |
| Butterfly.Reduce | kernels/attn_rows.h:28-30 | The butterfly leaves the fold of all R lanes in every lane, for every power of two R and every associative, commutative operator. |
| Butterfly.FoldMaxIsMaximum | kernels/attn_tiled.h:162-164 | For max that fold is attained and bounds every lane. |
| AttnRows.CoordOwner | kernels/attn_rows.h:7-9 | Every head coordinate belongs to a lane's slice. |
| AttnRows.LanePartsSum | kernels/attn_rows.h:23-27 | The lanes' strided shares add up to the whole dot product. |
| AttnRows.RowsDot | kernels/attn_rows.h:20-32 | q.k on R lanes leaves the full product in every lane. |
| AttnRows.AttnRowsStep | kernels/attn_rows.h:45-59 | One key on one lane extends that lane's sums, maximum and slice by the key, and no other lane's. |
| AttnRows.FoldKeys | kernels/attn_rows.h:45-59 | Folding in the visited keys leaves every lane's slice holding exactly them. |
| AttnRows.AttnRow | kernels/attn_rows.h:61-82 | The stored row is the plain masked attention for any visiting order that reaches every live key; nothing outside the row is written, and the state kept is the sum against an attained maximum. |
| AttnRowsGrid.RangeCoversKept | kernels/flash_attn_rows.metal:125-137 | The union range a simdgroup walks holds every key that any of its rows keeps. |
| AttnRowsGrid.LoneRangeIsKept | kernels/flash_attn_rows.metal:20-24 | With one row to a simdgroup masked keys are never visited: the range is exactly the row's kept keys. |
| AttnRowsGrid.FewExtraKeys | kernels/flash_attn_rows.metal:41-45 | Sharing the loop among 32 / R rows costs a row fewer than 32 / R keys beyond those it keeps, clamped ranges and rows that keep nothing included. |
| AttnRowsGrid.RowsKernel | kernels/flash_attn_rows.metal:77-165 | One simdgroup: its rows of head bh become the plain masked attention at their addresses, every other output element keeps its value. |
| AttnRowsGrid.RowHome | kernels/flash_attn_rows.metal:77-103 | Every row belongs to a simdgroup of the grid. |
| AttnRowsGrid.Dispatch | kernels/flash_attn_rows.metal:77-165 | All simdgroups in any order, repeats included: every output element is the plain masked attention, for every window, offset, live prefix and R. |
| AttnTiled.RangeCoversLive | kernels/attn_tiled.h:82-94 | In causal and encoder mode [t_lo, t_end) holds every live key of every row of the tile and stays inside the live prefix. |
| AttnTiled.CausalRangeIsTight | kernels/attn_tiled.h:92-94 | A causal range walks exactly the keys of the tile's last row. |
| AttnTiled.NextAtLeastOne | kernels/attn_tiled.h:119-123 | With any nonnegative rounding of P that keeps 1, the row sum is at least 1 once a live key was seen. |
| AttnTiled.FoldIsBlockMax | kernels/attn_tiled.h:146-164 | The maximum the butterfly leaves is the maximum of the row's live scores in the block. |
| AttnTiled.SoftmaxRow | kernels/attn_tiled.h:143-184 | One row of the pass: rescale factor, stored (rounded) weights and their sum, though P may overwrite S in place. |
| AttnTiled.SoftmaxPass | kernels/attn_tiled.h:143-184 | All rows of the pass, in any order. |
| AttnTiled.RunBlock | kernels/attn_tiled.h:135-196 | One key block keeps: every output is the blend of the values by the weights so far, and every row state matches those weights. |
| AttnTiled.WalkKeys | kernels/attn_tiled.h:135-196 | The whole key walk reaches the state over every key of the row. |
| AttnTiled.FinishedRow | kernels/attn_tiled.h:16-31 | For any rounding that keeps 0 and 1 a row that saw a live key is a convex combination of its live values. |
| AttnTiled.FinishedExact | kernels/attn_tiled.h:198-205 | Without rounding the finished row is the exact softmax. |
| AttnTiled.FinishedLse | kernels/attn_tiled.h:206-213 | Without rounding the stored log-sum-exp is the logarithm of the unshifted sum. |
| AttnTiled.AttnTiledCore | kernels/attn_tiled.h:53-230 | The threadgroup: every live row is a convex combination of live values under any such rounding, the exact softmax and log-sum-exp without rounding, and zeros with the stand-in log-sum-exp when nothing is live. |
| AttnTiledGrid.StoreLse | kernels/attn_tiled.h:206-213 | The log-sum-exp of each row goes to [b, h, t] of its buffer and no other entry changes. |
| AttnTiledGrid.Threadgroup | kernels/attn_tiled.h:66-230 | One threadgroup: the rows it has are what the row theorem says, converted and at their addresses; every other row and log-sum-exp keeps its value. |
| AttnTiledGrid.Dispatch | kernels/attn_tiled.h:66-75 | All threadgroups in any order, repeats included: every row of the dispatch is so held, with a live length per batch row. |
| AttnTiledGrid.HeldIsSoftmax | kernels/attn_tiled.h:198-230 | With nothing rounded a held row is the plain softmax of what it sees, through the output conversion, and its log-sum-exp that of the unshifted sum. |
| AttnElements.KvElement | kernels/attn_fa2.h:72-77 | A query head that key/value head kv serves reads, at every position and coordinate, the element of kv there: grouped-query attention over the flat buffers. |
| AttnElements.PlainOfElements | bench/flash_attn_torch_mlx.py:57-86 | The plain attention every kernel is proved equal to is the script's softmax of the flat queries, the keys and values of the served head, its mask, and the positions below the clamped live length. |
| AttnElements.OutElement | kernels/attn_fa2.h:78-87 | Output element (b, t, h, d) lies at its row-major index. |
| AttnElements.SeenPositions | kernels/attn_tiled.h:77-94 | A causal row of the tiled kernel sees what the script's mask keeps without a window; an encoder row the keys at most `window` away, all for window 0, none when it is padding. |
| AttnElements.SeenElements | kernels/attn_tiled.h:70-80 | The scores and values of a tiled row, in elements of the flat buffers. |
| AttnElements.LseElement | kernels/attn_tiled.h:206-213 | The log-sum-exp of (b, h, t) lies at (b H + h) Tq + t. |
| JpegBits.BitsOfConcat | scripts/gen_jpeg_fixtures.py:177-179 | Shifting in n bits appends their bits to those already held. |
| JpegBits.Bits.Put | scripts/gen_jpeg_fixtures.py:177-186 | `put` appends the low ln bits of its code to the bits put so far and keeps the buffer the stuffed form of the whole bytes. |
| JpegBits.Bits.Flush | scripts/gen_jpeg_fixtures.py:188-190 | `flush` pads with ones to a byte and leaves nothing pending. |
| JpegBits.Bits.Restart | scripts/gen_jpeg_fixtures.py:254-257 | Closing an interval appends the restart marker of its number mod 8 and starts the next with no bits. |
| JpegBits.SplitEntropy | scripts/gen_jpeg_fixtures.py:180-184 | Splitting entropy-coded data at its RSTn markers and removing stuffed zeros gives the intervals back and stops at the marker that follows. |
| JpegBits.EntropyRoundTrip | scripts/gen_jpeg_fixtures.py:177-190 | Reading a stuffed stream back gives exactly the chunks that were written. |
| JpegHuffman.Codes | scripts/gen_jpeg_fixtures.py:152-160 | The writer's loop assigns to each symbol, in order, the canonical code of its place. |
| JpegHuffman.CanonicalOrder | scripts/gen_jpeg_fixtures.py:153-159 | Code values count up by one and shift left by the growth in length (section C.2 of ITU-T T.81). |
| JpegHuffman.DecodeCode | scripts/gen_jpeg_fixtures.py:152-160 | Bit-serial decoding by figures F.15 and F.16 of ITU-T T.81 returns the symbol of the code that was written and the rest of the stream. |
| JpegHuffman.PrefixFreeIffFits | scripts/gen_jpeg_fixtures.py:152-160 | For every BITS list the written code is prefix-free if and only if each length's canonical values fit that length. |
| JpegHuffman.OverflowMeansNotPrefixFree | scripts/gen_jpeg_fixtures.py:152-160 | A BITS list that overflows a length makes the all-zero code a prefix of another. |
| JpegHuffman.Table.SymbolRoundTrip | scripts/gen_jpeg_fixtures.py:163-168 | On a valid table a symbol's code decodes to that symbol. |
| JpegHuffman.TablesValid | scripts/gen_jpeg_fixtures.py:141-149 | The script's DC, AC and lossless tables are valid: one codeword per symbol, prefix-free. |
| JpegValues.BitLengthBounds | scripts/gen_jpeg_fixtures.py:195-195 | The category of a nonzero value is its bit length: 2^(c-1) <= abs(d) < 2^c. |
| JpegValues.ValueRoundTrip | scripts/gen_jpeg_fixtures.py:196-198 | RECEIVE and EXTEND (section F.2.2.1 of ITU-T T.81) undo the category and extra bits of every value, sign included. |
| JpegValues.IntervalsConcat | scripts/gen_jpeg_fixtures.py:252-261 | The restart intervals are the units, in order, each once. |
| JpegValues.RestartDue | scripts/gen_jpeg_fixtures.py:253-257 | `n % restart == 0` holds exactly when a whole interval has been written since the last restart. |
| JpegBlock.EncodeBlock | scripts/gen_jpeg_fixtures.py:193-215 | The block encoder appends exactly the block's bits: DC category and bits, ZRLs, run/size codes, EOB unless the last coefficient is 63; it returns the block's DC. |
| JpegBlock.BlockRoundTrip | scripts/gen_jpeg_fixtures.py:193-215 | A block whose difference and coefficients fit category 15 is read back by figure F.13 of ITU-T T.81, and nothing after it. |
| JpegBlock.ReadBackIffFits | scripts/gen_jpeg_fixtures.py:141-142 | Of all the blocks the writer writes (DC category up to 15, AC categories below 256) exactly those whose AC coefficients fit category 15 are read back by figure F.13; the script says any coefficient block can be written. |
| JpegBlock.DecodedFits | scripts/gen_jpeg_fixtures.py:193-215 | Whatever the stream, no decoded block has an AC coefficient past category 15. |
| JpegBlock.CategorySixteenCollides | scripts/gen_jpeg_fixtures.py:209-211 | An input past category 15: two different blocks are written alike, so no decoder could tell them apart. |
| JpegScan.ZigzagRoundTrip | scripts/gen_jpeg_fixtures.py:132-134 | The ZZ table and figure A.6 of ITU-T T.81 are inverse orders of a block. |
| JpegScan.RefsRoundTrip | scripts/gen_jpeg_fixtures.py:258-260 | A run of blocks of any components decodes to itself with the DC prediction of each component. |
| JpegScan.Scan | scripts/gen_jpeg_fixtures.py:247-263 | The scan writer's bytes are its restart intervals, each coding its units from zero predictions, markers numbered mod 8. |
| JpegScan.ScanRoundTrip | scripts/gen_jpeg_fixtures.py:247-263 | Decoding a scan gives exactly the blocks of its units for every restart interval and stops at the marker after it. |
| JpegUnits.Units | scripts/gen_jpeg_fixtures.py:265-271 | The MCU loops list every data unit of the padded grid of every component exactly once. |
| JpegUnits.McuUnits | scripts/gen_jpeg_fixtures.py:269-270 | The loops over components, rows and columns list an MCU. |
| JpegPlaces.DataUnitPlace | scripts/gen_jpeg_fixtures.py:265-271 | The place of every data unit: MCU my * mcux + mx holds block (my v + y, mx h + x) of its i-th component at the sum of h v over the components before, plus y h + x, which is section A.2.3 of ITU-T T.81. |
| JpegPlaces.InterleavedPlace | scripts/gen_jpeg_fixtures.py:243-271 | In an interleaved file that is component i of the frame with the frame's own factors, for every MCU that touches the image. |
| JpegPlaces.EveryBlockCarried | scripts/gen_jpeg_fixtures.py:265-276 | The scans of a baseline file, interleaved or not, carry every block of every component that starts inside the image. |
| JpegUnits.UnitRowsCount | scripts/gen_jpeg_fixtures.py:267-270 | How often a data unit is listed: once if it lies in the grid, never otherwise. |
| JpegLoneScan.LoneOrder | scripts/gen_jpeg_fixtures.py:265-271 | A file of one component is written in the raster order of section A.2.2 of ITU-T T.81 if and only if its MCUs are one block high or fill a row alone and no block is padding; 1 x 1 factors always meet this. |
| JpegLoneScan.LoneIsBaseline | scripts/gen_jpeg_fixtures.py:242-271 | That geometry is the one `write_jpeg` uses for a single component, interleaved or not. |
| JpegFile.WriteJpeg | scripts/gen_jpeg_fixtures.py:242-279 | From the header segments on: one part per scan of the chosen geometry, with the header that names its components, each coding its blocks, and EOI when asked. |
| JpegFile.JpegRoundTrip | scripts/gen_jpeg_fixtures.py:242-279 | On a file closed with EOI the marker search finds each scan, and decoding from there with the tables and the writer's own geometry gives exactly the coded blocks, for every sampling layout, interleaving and restart interval. |
| JpegFile.BaselineTables | scripts/gen_jpeg_fixtures.py:141-165 | The script's own tables cover every DC category up to 15 and every run/size pair. |
| JpegHeader.WriteHeader | scripts/gen_jpeg_fixtures.py:222-241 | The bytes between SOI and the first scan: application segments, DQT of one- or two-byte elements in zigzag order, SOF, DHT and DRI. |
| JpegHeader.HeaderReadsBack | scripts/gen_jpeg_fixtures.py:222-241 | A decoder by sections B.2.2 and B.2.4 of ITU-T T.81 reads back from those segments everything the writer was told. |
| JpegDecoder.WriteBaseline | scripts/gen_jpeg_fixtures.py:218-279 | write_jpeg whole: its header and its scans, and EOI when asked. |
| JpegDecoder.BaselineFileDecoded | scripts/gen_jpeg_fixtures.py:218-279 | From the bytes of a closed baseline file alone a decoder recovers tables, frame and restart interval, and exactly the blocks of the grids of its scans, each as it was coded. |
| JpegLossless.PutDiff | scripts/gen_jpeg_fixtures.py:375-380 | `ll_put_diff` appends the difference's bits: category, and extra bits for categories 1 to 15 only. |
| JpegLossless.DifferenceRoundTrip | scripts/gen_jpeg_fixtures.py:375-380 | A difference is read back as itself, except that -32768 and 32768 share the bitless category 16 and both read as 32768, the same number mod 2^16. |
| JpegLossless.UndifferenceDifference | scripts/gen_jpeg_fixtures.py:449-451 | Adding the prediction mod 2^16 undoes the signed 16-bit difference. |
| JpegLossless.SamplesRoundTrip | scripts/gen_jpeg_fixtures.py:433-452 | A causal list of samples decodes to itself with each of the seven predictors (section H.1.2 of ITU-T T.81). |
| JpegPredictors.PredictSelects | scripts/gen_jpeg_fixtures.py:370-372 | Each selection value predicts what table H.1 says of the left, upper and upper left neighbours, halves rounded down. |
| JpegPredictors.DifferenceWritten | scripts/gen_jpeg_fixtures.py:436-452 | The difference written for a sample is, modulo 2^16, the sample less its prediction: the start value, the left neighbour in the first row of a restart interval, the upper one in the first column, else the selected predictor. |
| JpegPredictors.StartIsHalfRange | scripts/gen_jpeg_fixtures.py:407-407 | The start value is 2^(P - Pt - 1), or 1 when no bit is left. |
| JpegOrder.IntervalCausal | scripts/gen_jpeg_fixtures.py:426-448 | Within a restart interval every sample's predictors precede it in MCU order, for any sampling factors. |
| JpegLosslessScan.CodeScan | scripts/gen_jpeg_fixtures.py:410-454 | `code_scan` writes each interval of whole MCU rows as its differences, first row predicted from the left, first sample from 2^(P-Pt-1). |
| JpegLosslessScan.LosslessRoundTrip | scripts/gen_jpeg_fixtures.py:410-454 | Decoding gives exactly the samples of the padded grid and stops at the marker after the scan. |
| JpegLosslessScan.SpansAreIntervals | scripts/gen_jpeg_fixtures.py:423-432 | A decoder that counts MCUs sees the same intervals, sample for sample, as the writer that counts MCU rows. |
| JpegLosslessFile.WriteLossless | scripts/gen_jpeg_fixtures.py:410-466 | From the header segments on: one coded part per requested scan, explicit, interleaved or one per component, with the header that names its components, predictor and point transform. |
| JpegLosslessFile.LosslessFileRoundTrip | scripts/gen_jpeg_fixtures.py:410-466 | On a file closed with EOI the search finds each scan, and decoding with the table and the geometry restores every sample of it, and no other. |
| JpegLosslessDecoder.WriteLossless | scripts/gen_jpeg_fixtures.py:383-466 | write_lossless whole: its header and the scans it is asked for. |
| JpegLosslessDecoder.LosslessFileDecoded | scripts/gen_jpeg_fixtures.py:383-466 | From the bytes of a closed lossless file alone the decoder recovers the header and exactly the samples of the scans' grids, each as it was coded, for every predictor, point transform and whole-row restart interval. |
| JpegPlaces.EverySampleCarried | scripts/gen_jpeg_fixtures.py:410-463 | Unless scans are listed, the scans of a lossless file carry every sample of every component. |
| JpegMarkers.EntropyClean | scripts/gen_jpeg_fixtures.py:180-184 | Entropy-coded data holds no FF except FF 00 and RSTn. |
| JpegMarkers.SkipClean | scripts/gen_jpeg_fixtures.py:529-531 | Skipping clean data stops exactly at the marker after it. |
| JpegMarkers.ScanOffsets | scripts/gen_jpeg_fixtures.py:512-532 | `scan_offsets` is the recursive walk over markers, in-range reads included. |
| JpegMarkers.ScanOffsetsExact | scripts/gen_jpeg_fixtures.py:512-532 | On any file of valid segments and scans closed with EOI it returns exactly the SOS positions. |
| Q4Dot.LoadX16 | kernels/q4_mlx_dot.h:44-62 | Sixteen elements are each stored divided by their 16^k place, and their sum returned. |
| Q4Dot.InPlaceIsNibble | kernels/q4_mlx_dot.h:64-83 | A mask in place on a 16-bit half keeps its nibble times 16^k. |
| Q4Dot.InPlaceIsDigit | kernels/q4_mlx_dot.h:81-92 | The bitwise mask keeps hexadecimal digit k of the half, in its place. |
| Q4Dot.SixteenProducts | kernels/q4_mlx_dot.h:84-92 | The sixteen masked products against the prescaled vector are the plain dot of the nibbles. |
| Q4Dot.Qdot16 | kernels/q4_mlx_dot.h:72-94 | `qdot16` returns scale times the nibble dot plus bias times the sum. |
| Q4Dot.PackDotIsRange | kernels/q4_mlx_dot.h:64-94 | What a lane adds for a pack is the sum over its sixteen columns of (scale q + bias) x; a pack never straddles a group. |
| Q4Dot.SameGroup | kernels/q4_mlx_dot.h:41-71 | All sixteen columns of a pack fall in one quantization group. |
| Q4Dot.RepackIsRepack | kernels/q4_mlx_dot.h:28-31 | The Interleaved4 repack holds every byte and scale/bias of the row-major bank at its tile place, padding rows zero. |
| Q4Dot.RepackSameDot | kernels/q4_mlx_dot.h:28-31 | A bank and its repack give every row the same dequantized dot product. |
| Q4Dot.RowMajorElements | kernels/q4_mlx_dot.h:28-31 | Weight (row, c) row-major is its group's scale times its nibble plus its group's bias: byte row * cols/2 + c/2, low half first, group row * cols/gs + c/gs. |
| Q4Dot.InterleavedElements | kernels/q4_mlx_dot.h:28-31 | The same for four-row tiles, [tile][pack][row][byte] and [tile][group][row]. |
| Q4Gemv.GroupWalk | kernels/gemv_q4_mlx_simd.h:136-148 | Stepping the scale/bias pointer by 512 / group_size lands on the next block's group when group_size divides 512. |
| Q4Gemv.BlocksSum | kernels/gemv_q4_mlx_simd.h:153-155 | After t blocks the 32 lanes together hold the first 512 t columns, each once. |
| Q4Gemv.LanesAreDot | kernels/gemv_q4_mlx_simd.h:153-192 | All lanes and blocks together are the whole row. |
| Q4Gemv.Lane | kernels/gemv_q4_mlx_simd.h:136-192 | A lane's registers, by pointer walk or by index, hold its columns of each row; rows past the end stay untouched. |
| Q4Gemv.SimdSum | kernels/gemv_q4_mlx_simd.h:193-195 | The lanes' sum of each row is that row's dequantized dot product. |
| Q4Gemv.SimdGemv | kernels/gemv_q4_mlx_simd.h:114-213 | Four rows from row0, for every epilogue and both layouts: each live row is the first bank's dot product, that plus the residual, or the stored activation of the first bank's times the second's, and nothing is written past the end. |
| Q4Gemv.UpScales | kernels/gemv_q4_mlx_simd.h:202-205 | Of a gate/up row only the gate goes through the activation: scaling the up projection scales the row. |
| Q4Gemm.IndexedAddress | kernels/gemm_q4_mlx_simd.h:62-81 | The indexed addresses are the layout's, row-major and interleaved. |
| Q4Gemm.SimdGemm | kernels/gemm_q4_mlx_simd.h:28-100 | The indexed form stores the same dot product for each of up to 8 activation rows, plus the residual when ADD, at m * rows + row, and touches nothing else. |
| Q4Gemm.GemmOutIs | kernels/gemm_q4_mlx_simd.h:28-31 | What is stored at m * rows + row is the dot product of x[m * cols ..] with bank row `row`, plus resid[m * rows + row] when ADD. |
| Q4Route.RowOwner | kernels/gemv_q4_mlx_simd.h:51-55 | Every bank row belongs to exactly one simdgroup of the bank's grid. |
| Q4Route.RouteQkvOwner | kernels/gemv_q4_mlx_simd.h:82-100 | In a Q/K/V dispatch every row of every bank belongs to exactly one simdgroup of the grid. |
| Q4Route.RouteKvOwner | kernels/gemv_q4_mlx_simd.h:68-80 | The same for a K/V dispatch. |
| Q4Route.DispatchQkv | kernels/gemv_q4_mlx_simd.h:82-213 | All threadgroups in any order compute every row of the three banks and write nothing past their rows. |
| TileWalks.MortonDecode2d | kernels/gemm_coop.h:25-34 | The 16-step loop gives the even and the odd bits of the code. |
| TileWalks.EncodeDecoded | kernels/gemm_coop.h:25-34 | Interleaving the decoded pair gives the code back. |
| TileWalks.DecodeEncoded | kernels/gemm_coop.h:25-34 | Decoding an interleaved pair gives the pair back. |
| TileWalks.PanelInside | kernels/gemm_coop.h:51-62 | Every id below the tile count decodes into the grid, to the tile whose id it is. |
| TileWalks.PanelVisits | kernels/gemm_coop.h:51-62 | Every tile is visited, at an id below the tile count. |
| TileWalks.Walk.Inside | kernels/gemm_coop.h:42-49 | For every walk policy a 32-bit id decodes inside the grid if and only if it is below the tile count, and then it is its tile's own id. |
| TileWalks.Walk.Visits | kernels/gemm_coop.h:94-158 | For every walk policy every tile of the grid is visited. |
| TileWalks.PanelNoWrap | kernels/gemm_coop.h:56-62 | When the grid and one band's row fit 32 bits the wrapping decode equals the exact one. |
| TileWalks.Walk.AtNoWrap | kernels/gemm_coop.h:94-102 | For every walk policy the tile the kernel forms in 32-bit arithmetic is the exact one, when the grid and a band's row fit 32 bits. |
| TileWalks.FullGridRejected | kernels/gemm_coop.h:56-57 | A grid of exactly 2^32 tiles is counted as none and the panel decode rejects every id, so the bound is needed. |
| TileWalks.GatedPanelFits | kernels/gemm_coop.h:94-102 | The gated walk's bands meet that bound for every signed column count on tiles of 16 x 32 or larger. |
| TileWalks.PanelGate | kernels/gemm_coop.h:94-102 | The production walk goes by panels exactly for B of 2^23 elements or more off the Morton grids, in bands of as many tiles as 512 rows of C hold. |
| GemmCoop.EdgeViews | kernels/gemm_coop.h:166-237 | The edge slices address exactly the tile's own elements, bounds included, for NN, TN and NT. |
| GemmCoop.InteriorViews | kernels/gemm_coop.h:166-237 | On an interior tile the offset views address the same elements as the edge slices, all in bounds. |
| GemmCoop.TileIsProduct | kernels/gemm_coop.h:395-408 | Whichever views a tile takes, its product is its part of A @ B. |
| GemmCoop.Mode.Passes | kernels/gemm_coop.h:315-369 | The register passes leave act(alpha p + beta C_prev + bias), rounded when asked, or C_prev + p under ACCUM. |
| GemmCoop.CoopTile | kernels/gemm_coop.h:302-371 | One tile writes each of its in-bounds elements once and nothing else. |
| GemmCoop.MmCoop | kernels/gemm_coop.h:379-409 | One threadgroup does that for the tile its id decodes to, and nothing when the id is rejected. |
| GemmCoop.RunGrid | kernels/gemm_coop.h:379-409 | All threadgroups in any order: every element of C becomes its result from the C there was, and nothing past the matrix is written. |
| GemmCoop.ProductElements | kernels/gemm_coop.h:205-238 | An element of A @ B is the sum of a[row * k + i] * b[i * n + col], with either operand the other way round when stored transposed. |
| GemmCoop.OutIs | kernels/gemm_coop.h:302-371 | C[row * n + col] becomes that sum, the sum on top of what was there, or narrow(act(alpha * sum + beta * C + bias[col])). |
| CeRow.LoIs | kernels/cross_entropy.metal:182-182 | exp(m + ln s) is the sum over the classes other than the target, whatever the shift. |
| CeRow.GradAgrees | kernels/cross_entropy.metal:177-190 | The gradient written without the cancellation is softmax minus one-hot on every row, with -inf logits and with nothing but the target. |
| CeRow.LossAgrees | src/cross_entropy.rs:677-695 | The loss from the first walk's state is logsumexp(z) - z_t. |
| CeRow.RowSumsToZero | src/cross_entropy.rs:46-49 | Every row's gradient sums to zero. |
| CeRow.AloneRow | src/cross_entropy.rs:683-689 | A row whose other classes are all -inf has loss 0 and zero gradient. |
| CeLanes.LaneSumsFold | kernels/cross_entropy.metal:111-128 | The lanes' sums over their strided columns fold to the sum over the chunk, for every number of lanes. |
| CeLanes.LaneMaxesFold | kernels/cross_entropy.metal:101-107 | The lanes' maxima over their strided columns fold to the chunk's maximum, `floor` included. |
| CeLanes.Reduced | kernels/cross_entropy.metal:107-128 | On a launch the host makes the two-level reduction hands lane 0 the fold of every lane. |
| CeWalk.LseUpdate | kernels/cross_entropy.metal:79-142 | One chunk of one row on strided lanes and two-level reductions: maximum, rescaled sum and target logit cover the vocabulary walked so far, -inf logits and the target skipped. |
| CeWalk.FirstWalk | src/cross_entropy.rs:587-606 | After the first walk every row's state covers the whole vocabulary, for every chunk width. |
| CeWalk.SecondWalk | src/cross_entropy.rs:608-659 | The second walk yields exactly dh and dW of softmax minus one-hot, whatever the chunk width and mode. |
| CeWalk.ModesAgree | src/cross_entropy.rs:648-657 | The rows a sink is handed are, row by row, the ones overwriting writes and adding adds. |
| CeCall.GatherRows | kernels/cross_entropy.metal:23-41 | Row i of the gathered states is columns [off, off + hidden) of hidden row rows[i]. |
| CeCall.Validate | src/cross_entropy.rs:399-448 | The checks accept exactly the calls within their ranges, and a refused index is the first bad one. |
| CeWalk.CeRows | src/cross_entropy.rs:474-675 | On accepted inputs the call returns the unchunked losses, their sum or mean, and the gradients; it fails at the first row whose loss is infinite. |
| CeCall.CrossEntropy | src/cross_entropy.rs:474-675 | The whole call: a refused one leaves the gradient buffers alone; an accepted one returns, over the elements of the hidden rows it names, the losses of their logits, and the gradients when wanted: sums of scale * (softmax - one-hot) with the weight and with the hidden states. |
| AirCache.ReuseIsClean | build.rs:440-449 | An entry that is reused is what a clean build would make of its key, dialect and warnings included. |
| AirCache.StepKeeps | build.rs:315-370 | Every step of every worker and of the main loop, and every crash or new build between two steps, keeps the invariant. |
| AirCache.CompletedIsClean | build.rs:153-230 | After any history of builds, edits, flag changes, failures and crashes a completed build links exactly the `.air` set of a clean sequential build. |
| AirCache.PanicIsClean | build.rs:171-226 | A build that gives up would have given up clean. |
| AirCache.LinkedAirs | build.rs:171-226 | Source by source: a completed build links the metal4.0 `.air`, or the metal3.2 one where metal4.0 failed, the source is not a TensorOps one and the build is not strict. |
| AirCache.PanicsAt | build.rs:171-226 | A build that gives up stopped at a source that has neither. |
| AirCache.ReusedIff | build.rs:440-449 | An entry is reused exactly when its key names this source under either dialect and its `.air` is there. |
| AirCache.ClaimedOnce | build.rs:323-368 | In every worker interleaving no source is claimed twice, and after the join each was claimed and has its outcome once. |
| AirCache.StrictNeverReusesFallback | build.rs:372-387 | A strict build, or a TensorOps source, never reuses a metal3.2 fallback. |
| BertBatch.CheckBatch | src/bert.rs:808-831 | The checks accept exactly the well-formed batches under exact f32 GEMMs and name the first bad sequence. |
| BertBatch.Grow | src/bert.rs:845-857 | A forward is the longest run from its start that stays in the row budget, or a single sequence. |
| BertBatch.FitsIff | src/bert.rs:806-807 | Sequences fit one forward exactly when there is one, or their number times the length of each is within 8192. |
| BertBatch.StaysAhead | src/bert.rs:845-863 | After the same number of forwards the greedy split is never behind any other. |
| BertBatch.GreedyIsFewest | src/bert.rs:845-863 | No contiguous split into forwards that fit uses fewer. |
| BertBatch.HeadBlock | src/bert.rs:967-1000 | A head block fits its buffers and pools exactly the real rows of its sequences. |
| BertBatch.Forward | src/bert.rs:879-1003 | A padded forward gives each sequence what it would get alone. |
| BertBatch.Encode | src/bert.rs:808-875 | Every sequence's vector is its own alone, in the order given; the cuts are a feasible split with the fewest forwards. |
| ReduceTree.StepKeeps | kernels/reduce_tree.h:42-83 | Whichever lane moves next, every lane holds what its place says, published partials are in their region, and nobody passes a barrier early. |
| ReduceTree.EveryRun | kernels/reduce_tree.h:38-56 | In every interleaving of two back-to-back reductions on separate regions, a lane that finished one holds what its simdgroup computes of it alone; no extra barrier is needed. |
| ReduceTree.NeverStuck | kernels/reduce_tree.h:50-56 | No run gets stuck before every lane has both results: every lane reaches the same barriers. |
| ReduceTotal.PartialsFold | kernels/reduce_tree.h:22-28 | The partials of the first simdgroups fold to the fold of their lanes. |
| ReduceTotal.PaddedFold | kernels/reduce_tree.h:61-64 | Lanes past the last simdgroup change neither a sum (they take 0) nor a maximum (they take partial 0 again). |
| ReduceTotal.TotalIffCovers | kernels/reduce_tree.h:22-28 | Every lane gets the total of every row if and only if the launch fits one simdgroup or its last simdgroup has a lane per partial; the header promises it for all launches. |
| ReduceTotal.ThirtyThreeMisses | kernels/reduce_tree.h:22-28 | 33 lanes break the promise, for sum and for maximum. |
| ReduceTotal.HostLaunchTotal | src/nn.rs:4765-4770 | Every launch the host makes (a power of two up to 1024) ends with the total in every lane, in every interleaving. |
| ReduceTotal.HostCovers | src/nn.rs:2947-2951 | The host's floor power of two always meets the condition, for every pipeline limit and row width. |
| ReduceTotal.HostLaunchSize | src/nn.rs:2947-2951 | The host launches as many lanes as it can: twice as many would pass the pipeline's limit, the width or 1024. |
| CbLedger.PingPongCbReplay.TryReplayIcb | src/cb_replay.rs:301-329 | Only an execute that really ran claims the slot and counts; a failed or suppressed one leaves the slot Ready. |
| CbLedger.PingPongCbReplay.TryReplayReadyIcb | src/cb_replay.rs:331-340 | Tries the first Ready slot, A before B, and names it on success. |
| CbLedger.PingPongCbReplay.ExecuteDecodeIcb | src/cb_replay.rs:285-299 | Fails without an encoded tape or when the execute fails; counts only an execute that ran. |
| CbLedger.PingPongCbReplay.RecordActive | src/cb_replay.rs:370-389 | Whatever the active slot's phase, it ends Ready: an open recording closed as it is, anything else recorded anew. |
| CbLedger.PingPongCbReplay.MarkStepInner | src/cb_replay.rs:370-396 | Marking a step never fails from any state and leaves the closed-form new state. |
| CbLedger.PingPongCbReplay.BeginRecord | src/cb_replay.rs:412-429 | Refuses a Recording or InFlight slot, else takes the next generation and makes the slot active. |
| CbLedger.PingPongCbReplay.OnGpuComplete | src/cb_replay.rs:462-477 | Frees the slot, or only counts when it is still Recording. |
| CbLedger.PingPongCbReplay.TryReplay | src/cb_replay.rs:441-460 | NotWired outside a dry run, whatever is attached; a dry run claims the Ready slot. |
| CbRuns.GenerationsRise | src/cb_replay.rs:420-422 | Among the first 2^64 - 1 recordings of any run each gets a generation above both slots'; the next one does not; no other call moves one, and the slots differ from the first recording on. |
| CbRuns.GenerationsAreSerials | src/cb_replay.rs:420-422 | Over every run, however long, a slot's generation is its recording's number modulo 2^64, and the two slots hold different recordings from the first on. |
| CbRuns.RisesIff | src/cb_replay.rs:420-422 | Over every run a recording's generation exceeds both slots' if and only if its number modulo 2^64 exceeds theirs. |
| CbRuns.WrapReached | src/cb_replay.rs:420-422 | 2^64 live steps reach the wrap: the last recording gets generation 0, below its peer's. |
| CbRuns.InFlightIsBacked | src/cb_replay.rs:301-329 | Outside a dry run an InFlight slot has a non-suppressed execute behind it and has been InFlight since. |
| CbRuns.FruitlessReplayRestores | src/cb_replay.rs:314-327 | A replay changes a slot if and only if its execute ran. |
| CbRuns.CountersCount | src/cb_replay.rs:180-195 | Every counter is the number of its events, stopping at 2^64 - 1; live-encoded steps never count as replays. |
| CbRuns.PeerRanIff | src/cb_replay.rs:375-384 | Over every run: between the claim of a slot and the step that recycles it a step ran on the peer, as the comment says, if and only if the first step after the claim does not face the slot, which the active slot at the claim, the flips and the recordings begun by hand since decide. |
| CbRuns.FacesActive | src/cb_replay.rs:375-384 | With neither a flip nor a hand-made recording before that step, that is exactly when the claim did not name the active slot. |
| CbRuns.RecycledAfter | src/cb_replay.rs:375-384 | The case of two steps directly after a claim: the slot is recycled at once if and only if it was the active one. |
| CbRuns.RecycledAtOnce | src/cb_replay.rs:331-339 | An input: after two live steps the search claims A while A is active, and the next step recycles it with none on B between. |
| CbRuns.RecycledAfterFlip | src/cb_replay.rs:479-483 | An input with B active at the claim: a flip follows, and the next step recycles A with none on B between. |
| CapiGuard.WaitAfterFailure | src/capi.rs:738-754 | The message starts with the call's own and ends with the failed wait's, if the wait was attempted and failed. |
| CapiGuard.Guarded | src/capi.rs:701-727 | A foreign or null handle is refused untouched; OK means the closure succeeded and nothing is in flight; otherwise work can be in flight only on a poisoned runtime or behind a message that reports the failed wait. |
| CapiGuard.IdleUnlessTold | src/capi.rs:45-56 | Over every call sequence: work in flight means poisoned, or the last call let in reported a failed wait. |
| CapiGuard.PoisonLasts | src/capi.rs:38-43 | A poisoned runtime stays poisoned and no later call returns OK. |
| CapiGuard.WriteErr | src/capi.rs:756-774 | The buffer gets the longest whole-character prefix that leaves room for the NUL, then the NUL, and no other byte changes. |
| CapiGuard.WholeIffRoom | src/capi.rs:756-774 | The whole message is copied if and only if the buffer is longer than it. |
| CapiText.BoundaryIff | src/capi.rs:766-768 | On UTF-8 text the one-byte test finds exactly the positions where a character ends. |
| CapiText.WholeCharacters | src/capi.rs:756-774 | What is written is the longest run of whole characters that leaves room for the NUL. |
| CapiGuard.ReadWholeIff | src/capi.rs:756-774 | A C caller reads the whole message if and only if the buffer is longer than it and no NUL is inside it. |
| CapiGuard.WaitReportCut | src/capi.rs:738-774 | An input: of a failed call whose wait fails too an eight-byte buffer shows nothing of the wait. |
| CapiCache.Check | src/capi.rs:425-487 | The checks before the cached workspace is touched accept exactly the admissible calls. |
| CapiCache.CrossEntropyRows | src/cross_entropy.rs:488-538 | The checks made on the workspace after it may have been rebuilt: size, key, a finite scale, overlaps and aliasing. |
| CapiCache.OverlapsIff | src/tensor.rs:753-757 | Two tensors with elements overlap exactly when a byte of one buffer is both of theirs. |
| CapiCache.KeyNames | src/capi.rs:480-498 | The workspace a call asks for: its width, type and operands, a chunk of 4096 by default cut to the vocabulary; it can be made exactly for a nonzero width divisible by 8 when the buffers are there. |
| CapiCache.TesslRuntime.Ce | src/capi.rs:425-514 | What the call does to cache and counter, when it succeeds, and, for a rejected one, that the cache is as it was if and only if a check before it refused, or the cached workspace fits, or there was none and none could be made. |
| CapiCache.KeyMatches | src/capi.rs:488-498 | After any calls a present workspace is the one the stored key names and has room for the call that used it. |
| CapiCache.RefusedKeepsIff | src/capi.rs:456-457 | The same condition as a theorem about every cache and call, against the comment that a refused call keeps the workspace and allocates nothing. |
| CapiCache.KeptThroughout | src/capi.rs:488-498 | Over every run the workspace there was is still the cached one if and only if every admitted call since fits it; once replaced or lost it does not come back. |
| CapiCache.LeftToRefuse | src/cross_entropy.rs:488-538 | A call that has its workspace is refused before any work exactly for a scale that is not finite, overlapping gradients, or a gradient sharing memory with an input or the workspace. |
| CapiCache.BadScaleReplacesIt | src/cross_entropy.rs:505-507 | An input: a scale that is not finite refuses the call after the cached workspace was dropped and another built. |
| CapiCache.TwelveWideLosesIt | src/capi.rs:456-457 | Another: a call on a 12-wide weight passes every check before the cache and loses the workspace. |
| CapiCache.RebuildBound | src/capi.rs:491-497 | While the key does not change and rows stay up to 2^31, builds are at most 32 less the doublings already held, plus 32 for every workspace lost. |
| CapiCache.RebuildBoundReached | src/capi.rs:491-497 | That bound is reached for every number of losses, so 32 alone is not a bound. |

## Left out

- Floating point: rounding, fast math, overflow and NaN. Values are reals; only the rounding of P, the output conversion
  and the epilogue's bf16 rounding appear, as parameters.
- 32- and 64-bit wrap-around of index products in the kernels, except in the tile walks (`TileWalks.PanelNoWrap`).
- Metal plumbing: pipelines, argument tables, residency, buffers, dispatch encoding and GPU memory order inside a phase.
- `matmul2d`: one tile's product is an exact primitive, in `AttnTiled` and `GemmCoop`.
- Barriers of the matrix-unit kernel: its phases run one after another, rows of a phase in any order. The blocked kernel
  (`AttnLaneRuns`) and the reduction (`ReduceTree`) have the barrier itself as a step.
- `simd_sum` in the GEMV and GEMM: a plain sum in lane order.
- AttnRows.AttnRow: the visit order is a parameter; `AttnRowsGrid` proves it for the range of the prefill kernel, while the
  range of `kernels/encoder_attn.metal` is not part of this model.
- Exact f32 GEMM (`mm_exact_f32`) and the quantized dequantising GEMMs: the tile walks cover their tile order only.
- JpegFile.JpegRoundTrip: the decoder is given the tables and the geometry, in the writer's own block order;
  `JpegDecoder.BaselineFileDecoded` takes them from the file.
- JpegDecoder.BaselineFileDecoded: a lone component with sampling factors above 1 is excluded, where the writer's order is
  not the standard's (`JpegLoneScan.LoneOrder`); what the caller adds before SOF is whole application or comment segments.
- JpegLosslessFile.LosslessFileRoundTrip: the decoder is given table and geometry;
  `JpegLosslessDecoder.LosslessFileDecoded` takes them from the file.
- JpegLosslessDecoder.LosslessFileDecoded: the hostile overrides (`diffs`, `scan_ss`, `scan_se`, `scan_ah`, `dht_extra`),
  `restart_rows` without a restart interval in the file, and a restart interval that is not whole MCU rows.
- The progressive writer, image synthesis, header surgery other than `scan_offsets`, and the case tables of the script.
- CeCall.Validate: tensor validity, runtime identity and aliasing checks of `validate_ce_inputs` and `ce_rows`, which
  `CapiCache.Check` and `CapiCache.CrossEntropyRows` model.
- CeWalk.CeRows: a sink that fails, and the bf16 copies of the operands.
- AirCache.CompletedIsClean: assumes collision-free keys, distinct stems, removals that succeed, whole-file writes, and no
  edit of a source or header while a build runs.
- BertBatch.Encode: the row-wise forward is uninterpreted; readbacks, tracing and the final synchronize are left out.
- ReduceTree.EveryRun: both reductions use their own scratch region, as the header demands of callers; runs that share one
  are not modelled.
- CbLedger.PingPongCbReplay.TryReplayIcb: what an execute does is given (`Exec`); the tape itself is not part of this
  model.
- CapiGuard.Guarded: thread identity is a number, and a freed handle is outside the contract.
- CapiCache.RebuildBound: rows above 2^31 are excluded, where the workspace is sized to the row count and no such bound
  exists.
- The model load and copy entry points, per-kernel wrappers, configuration parsing, bindings, benchmarks and other fixture
  generators: argument checks and wrappers around what is modelled here.
