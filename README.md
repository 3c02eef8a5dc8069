# SNOT block selection in ToBricksTransform, modelled in Dafny

This project models the studs-not-on-top (SNOT) engine of the mosaic
program's `ToBricksTransform` and proves what it computes.

The image is cut into 10x10 pixel blocks. Each block can be covered by ten
studs in one of two ways:

- **normal**: 2 stud columns by 5 stud rows, each stud 5 pixels wide and 2 tall;
- **sideways**: 5 stud columns by 2 stud rows, each stud 2 pixels wide and 5 tall.

The stud colours come from two colour grids, one per orientation.

For each block, `bestMatch`/`arrayBestMatch` work as follows:

1. They add up a colour distance between each stud colour and the pixels it covers, once per orientation.
2. They keep normal unless sideways is strictly closer.
3. They overwrite the block's pixels with the chosen studs.
4. They record the choice.

A memo on the pair of grids makes a repeated call a no-op.

Two read-outs use the recorded choices:

- `addOne`/`addAll`/`lastUsedColorCounts` count the studs of every block into a table indexed by colour id. They then compact it, in id order.
- `buildLastInstructions` walks a clipped window of blocks. It emits one numbered printer call per stud: `add` for a normal block, `addSideways` for a sideways one.

Modules (one file each):

- `Colors` (`colors.dfy`): RGB colours, the packed ARGB int, and the contrast rule for labels.
- `BlockTiling` (`block_tiling.dfy`):
  - stud geometry of a block and row-major raster indexing;
  - the distance sums as recursive functions in the order the source's loops add them up, and a proof that they measure each pixel of the block once against the stud that covers it;
  - the decision and the commit formula;
  - the imperative loops of `arrayBestMatch` as methods proved against those functions.
- `UsageTable` (`usage_table.dfy`): the id-indexed count table as a value, with `Tally`, `TallyAll` and `Compact`. It also holds `addOne` as a method on an array, and the lemmas about what compaction delivers.
- `Instructions` (`instructions.dfy`):
  - the stud placements of a block in visiting order;
  - the numbered printer calls made from them;
  - the colours addAll reads for a block.
- `Window` (`window.dfy`):
  - the last rendering as a value: the grids, the choices, and what each block is made of;
  - the stud stream of a block window;
  - lemmas tying the counted colours to the emitted calls.
- `ToBricks` (`to_bricks.dfy`): the class `ToBricksTransform` with its fields, `bestMatch`, the usage methods and `buildLastInstructions`. Each nested loop of the source is a method of its own.
- `Seqs` (`seqs.dfy`): three generic sequence facts.
- `Sums` (`sums.dfy`): sums of a function over the cells of a rectangle, by rows or by columns, and how they split and regroup.

Design choices:

- The colour difference `ColorDifference.diffCIE94` is not part of this model. It is the constructor parameter `diff`, a function from a stud colour and a packed pixel to an int.
- Object identity of the two grids, which the memo compares, is modelled by a generation number `gen` in `ColorGrid`.
- `BufferedImage.getRGB`/`setRGB` are left out. `BestMatch` works directly on the caller's row-major `array<int>`, with the image size passed as `imgW`, `imgH`.
- The printer (`InstructionsBuilderI`) is modelled as the sequence of calls `BuildLastInstructions` returns.
- `LEGOColor.getMaxRebrickableId()` is the parameter `maxId` of `LastUsedColorCounts`.
- The block width `SizeInfo.SNOT_BLOCK_WIDTH` is taken as 10, the value `arrayBestMatch`'s index arithmetic assumes.

## Model

| member | source | states |
|---|---|---|
| Colors.Argb | src/transforms/ToBricksTransform.java:248 | the packed colour is a negative Java int (alpha 0xFF on top) |
| Colors.ArgbChannels | src/transforms/ToBricksTransform.java:248 | blue, green and red can be read back from the packed colour |
| Colors.ArgbInjective | src/transforms/ToBricksTransform.java:248 | different colours pack to different ints, so the commit writes the chosen stud's colour and no other |
| Colors.ContrastingTextColor | src/transforms/ToBricksTransform.java:37-50 | the label colour is white or black, and white exactly when 299 R + 587 G + 114 B is below 128000 |
| Colors.ContrastOnBlack | src/transforms/ToBricksTransform.java:37-50 | black gets white text |
| Colors.ContrastOnWhite | src/transforms/ToBricksTransform.java:37-50 | white gets black text |
| Colors.ContrastMonotone | src/transforms/ToBricksTransform.java:37-50 | a colour at least as bright in every channel as a colour with black text also gets black text |
| BlockTiling.StudTiling | src/transforms/ToBricksTransform.java:203-214 | every pixel a stud covers lies in the block, and maps back to that stud's column and row |
| BlockTiling.IdxInRange | src/transforms/ToBricksTransform.java:180-181 | a pixel inside the raster has a row-major index inside the buffer |
| BlockTiling.IdxInjective | src/transforms/ToBricksTransform.java:180-181 | distinct pixels have distinct row-major indices |
| BlockTiling.LocalDependsOnBlockOnly | src/transforms/ToBricksTransform.java:196-234 | the pixels the distance sums read are those of the block alone |
| BlockTiling.BlockHoldsFrame | src/transforms/ToBricksTransform.java:183-187 | a committed block stays committed while only pixels outside it change |
| BlockTiling.LocalOfUnchanged | src/transforms/ToBricksTransform.java:183-187 | a block whose pixels still hold the original ones is scored as in the original image |
| BlockTiling.GridIndices | src/transforms/ToBricksTransform.java:205-208 | the source's row index blockY*n5+y and column index blockX*n2+x are the grid row and column of the stud |
| BlockTiling.StudOrigin | src/transforms/ToBricksTransform.java:198-207 | the running index originalIXY is the row-major index of the stud's top-left pixel |
| BlockTiling.StudDistByPixels | src/transforms/ToBricksTransform.java:207-214 | one stud's distance is the sum, over the pixels it covers, of any f that gives each pixel its distance from the stud covering it |
| BlockTiling.RowDistByPixels | src/transforms/ToBricksTransform.java:205-215 | when each stud's distance is a sum of f over its pixels, the first k studs of a stud row sum f over the band of pixel rows under them, k studs wide, each pixel once |
| BlockTiling.BlockDistByPixels | src/transforms/ToBricksTransform.java:202-216 | when each stud row's distance is a sum of f over its band, the first k stud rows sum f over the top pixel rows of the block they cover, each pixel once |
| BlockTiling.DistanceByPixels | src/transforms/ToBricksTransform.java:202-234 | the score of an orientation is the sum over all 100 pixels of the block of the distance from the colour of the stud the commit writes there |
| BlockTiling.ChooseNormalByPixels | src/transforms/ToBricksTransform.java:236-240 | normal is kept exactly when its per-pixel distance sum is at most the sideways one |
| BlockTiling.SumColumnDistance | src/transforms/ToBricksTransform.java:210-213 | the y2 loop adds the distance of one pixel column of a stud, as ColumnDist |
| BlockTiling.SumStudDistance | src/transforms/ToBricksTransform.java:207-214 | the x2 loop adds the distance of one stud over all its pixels, as StudDist |
| BlockTiling.SumRowDistance | src/transforms/ToBricksTransform.java:205-215 | the x loop adds the distance of one stud row, as RowDist |
| BlockTiling.SumDistance | src/transforms/ToBricksTransform.java:202-234 | distNormal and distSideways are the total Distance of the block in that orientation |
| BlockTiling.FillColumn | src/transforms/ToBricksTransform.java:250-252 | the y2 loop of the commit writes colour c to one pixel column of a stud, and no other pixel |
| BlockTiling.FillStud | src/transforms/ToBricksTransform.java:249-253 | the x2 and y2 loops write c to exactly the stud's rectangle |
| BlockTiling.FillRow | src/transforms/ToBricksTransform.java:246-254 | the x loop writes each pixel of a stud row with the colour of the stud covering it, and nothing else |
| BlockTiling.FillBlock | src/transforms/ToBricksTransform.java:243-255 | the commit writes every pixel of the block with its stud's colour, and no pixel outside the block |
| Instructions.StudCall | src/transforms/ToBricksTransform.java:529-540 | stud i of stud row j is add(k, 2x+i, 5y+j, normal[5y+j][2x+i]) for a normal block and addSideways(k, 5x+i, 2y+j, sideways[2y+j][5x+i]) for a sideways one |
| Instructions.RowsPlacementsShape | src/transforms/ToBricksTransform.java:529-542 | the first k stud rows hold k*StudCols studs, stud i of row j at position j*StudCols + i |
| Instructions.BlockPlacementsLength | src/transforms/ToBricksTransform.java:529-542 | every block yields ten studs |
| Instructions.BlockPlacementAt | src/transforms/ToBricksTransform.java:529-542 | stud i of stud row j is the block's stud number StudIndex(o, j, i), rows outer and columns inner |
| Instructions.NumberedFromAppend | src/transforms/ToBricksTransform.java:516-539 | numbering two streams one after the other with a running id numbers their concatenation |
| Instructions.ColorsOfAppend | src/transforms/ToBricksTransform.java:490-495 | the colours of two streams are the colours of each, in order |
| Instructions.RowsColorsPrefix | src/transforms/ToBricksTransform.java:490-495 | the colours of fewer stud rows are a prefix of those of more rows |
| Instructions.RowsColorsOfPlacements | src/transforms/ToBricksTransform.java:490-495 | the row slices addAll reads are the colours of the studs the printer is given, row by row |
| Instructions.BlockColorsOfPlacements | src/transforms/ToBricksTransform.java:490-495 | the ten colours addAll reads for a block are the colours of the block's ten emitted studs, in order |
| UsageTable.AddOne | src/transforms/ToBricksTransform.java:463-473 | true exactly when the colour's slot was empty; the new table is the old one with that colour counted once more |
| UsageTable.TallyCount | src/transforms/ToBricksTransform.java:463-473 | counting a colour raises its id's count by one and leaves every other count alone |
| UsageTable.TallyWellKeyed | src/transforms/ToBricksTransform.java:463-473 | after counting, every filled slot still holds the colour of its own id |
| UsageTable.TallyCompact | src/transforms/ToBricksTransform.java:463-473 | counting a colour adds one compacted entry exactly when its slot was empty |
| UsageTable.TallyTotal | src/transforms/ToBricksTransform.java:463-473 | counting a colour raises the sum of all counts by one |
| UsageTable.TallyAllAppend | src/transforms/ToBricksTransform.java:479-498 | counting two stud lists one after the other counts their concatenation |
| UsageTable.TallyAllCount | src/transforms/ToBricksTransform.java:479-498 | after counting a list of studs, each id's count grows by the number of studs with that id |
| UsageTable.TallyAllTotal | src/transforms/ToBricksTransform.java:479-498 | counting a list of studs raises the sum of counts by the list's length |
| UsageTable.TallyAllFilled | src/transforms/ToBricksTransform.java:479-498 | starting from an empty table, the filled slots are exactly the ids seen |
| UsageTable.CompactSize | src/transforms/ToBricksTransform.java:506-511 | the compacted array has one entry per filled slot |
| UsageTable.CompactMembers | src/transforms/ToBricksTransform.java:506-511 | an entry is in the compacted array exactly when some slot holds it |
| UsageTable.CompactSorted | src/transforms/ToBricksTransform.java:506-511 | the compacted entries come in strictly increasing id order |
| UsageTable.CompactTotal | src/transforms/ToBricksTransform.java:506-511 | compaction keeps the sum of counts |
| UsageTable.UsageSize | src/transforms/ToBricksTransform.java:503-512 | lastUsedColorCounts has one entry per distinct colour id used |
| UsageTable.UsageTotal | src/transforms/ToBricksTransform.java:503-512 | its counts add up to the number of studs counted |
| UsageTable.UsageOrder | src/transforms/ToBricksTransform.java:503-512 | its entries are in strictly increasing id order |
| UsageTable.TallyAllColors | src/transforms/ToBricksTransform.java:463-473 | every filled slot holds a colour that was counted (the first one counted with that id) |
| UsageTable.UsageEntries | src/transforms/ToBricksTransform.java:503-512 | each entry is a colour that was used, with the number of studs of that colour |
| UsageTable.UsageComplete | src/transforms/ToBricksTransform.java:503-512 | every colour that was used has an entry |
| Window.BlockOf | src/transforms/ToBricksTransform.java:481-495 | a block in either orientation is made of ten studs |
| Window.StudsBuilt | src/transforms/ToBricksTransform.java:521-541 | a block of the last rendering emits the studs of its chosen orientation |
| Window.UsageBuilt | src/transforms/ToBricksTransform.java:481-495 | addAll reads a block's colours from the grid of its chosen orientation |
| Window.BuiltAgrees | src/transforms/ToBricksTransform.java:481-495 | for every block, the colours addAll reads are the colours of the studs the printer is given |
| Window.ColumnUsageStep | src/transforms/ToBricksTransform.java:480-497 | one more y step of addAll appends that block's ten colours, and their ids stay in the table |
| Window.AllUsageStep | src/transforms/ToBricksTransform.java:479-498 | one more x step of addAll appends that block column's colours, and their ids stay in the table |
| Window.ColumnTally | src/transforms/ToBricksTransform.java:480-497 | counting one more block into the table of the column so far gives the table of one block more |
| Window.AllTally | src/transforms/ToBricksTransform.java:479-498 | counting one more column into the table of the columns so far gives the table of one column more |
| Window.WindowNumberedStep | src/transforms/ToBricksTransform.java:518-544 | appending a column numbered from the running id to the numbered window so far numbers the window of one column more |
| Window.WindowStreamNoRows | src/transforms/ToBricksTransform.java:519-520 | a window with no block rows emits nothing |
| Window.ColumnStreamLength | src/transforms/ToBricksTransform.java:520-542 | each block of a column emits ten calls |
| Window.WindowStreamLength | src/transforms/ToBricksTransform.java:517-544 | a window of w by n blocks emits 10*w*n calls |
| Window.ColumnStreamSplit | src/transforms/ToBricksTransform.java:520 | a column's calls are those of the blocks above any split row, then those from it on |
| Window.WindowStreamSplit | src/transforms/ToBricksTransform.java:518 | a window's calls are those of the columns left of any split column, then those from it on |
| Window.WindowAround | src/transforms/ToBricksTransform.java:518 | a window's calls are those left of a column, that column's, then those right of it |
| Window.ColumnAround | src/transforms/ToBricksTransform.java:520 | a column's calls are those above a block, that block's, then those below it |
| Window.WindowStudAt | src/transforms/ToBricksTransform.java:518-542 | stud s of a block is emitted after every stud of the earlier columns and of the blocks above it |
| Window.BuiltStudAt | src/transforms/ToBricksTransform.java:529-541 | stud i of stud row j of a block is its stud number StudIndex(o, j, i) and sits on the chosen grid |
| Window.WindowInstruction | src/transforms/ToBricksTransform.java:515-545 | call number k of the window is the call for stud i of row j of block (x, y), where k counts the studs of the earlier columns, the blocks above and the stud's place in its block |
| Window.StudsBefore | src/transforms/ToBricksTransform.java:515-545 | the calls before block (x, y) of a window number ten per block of the earlier columns and of the blocks above |
| Window.ColumnColors | src/transforms/ToBricksTransform.java:480-497 | the colours addAll counts for a column are the colours of the calls emitted for it |
| Window.AllColors | src/transforms/ToBricksTransform.java:479-498 | the colours addAll counts for the first k columns are the colours of the calls emitted for them |
| Window.UsedAreInstructed | src/transforms/ToBricksTransform.java:475-500 | the studs addAll counts are, one for one and in order, those of the calls for the full window; there are ten per block |
| Window.UsageCountsAllStuds | src/transforms/ToBricksTransform.java:475-512 | the usage counts add up to ten studs per block |
| ToBricks.JavaDiv | src/transforms/ToBricksTransform.java:137 | the quotient is truncated toward zero, as Java's int division |
| ToBricks.TruncatedQuotientUnique | src/transforms/ToBricksTransform.java:137 | that characterisation names exactly one quotient |
| ToBricks.AddRow | src/transforms/ToBricksTransform.java:490-495 | the w loop counts one stud row; the result is the number of slots it filled |
| ToBricks.AddBlock | src/transforms/ToBricksTransform.java:483-496 | the h and w loops count the ten studs of a block; the result is the number of slots they filled |
| ToBricks.AddChosenBlock | src/transforms/ToBricksTransform.java:481-496 | one y step of addAll counts the block's studs in its chosen orientation |
| ToBricks.AddColumn | src/transforms/ToBricksTransform.java:480-497 | the y loop counts every block of the column; the result is the number of slots it filled |
| ToBricks.EmitRow | src/transforms/ToBricksTransform.java:532-541 | the i loop emits the calls for one stud row, numbered on from id |
| ToBricks.EmitBlock | src/transforms/ToBricksTransform.java:521-542 | the j and i loops emit the ten calls of a block, numbered on from id |
| ToBricks.EmitColumn | src/transforms/ToBricksTransform.java:519-543 | the y loop emits the calls of the column's blocks in the clipped range, numbered on from id; nothing for an empty range |
| ToBricks.CompactTable | src/transforms/ToBricksTransform.java:506-511 | the copy loop puts the filled slots, in slot order, into a fresh array of the given size |
| ToBricks.ToBricksTransform.constructor | src/transforms/ToBricksTransform.java:52-69 | stores the construction type and the size; no grids and no choices yet |
| ToBricks.ToBricksTransform.SetToBricksType | src/transforms/ToBricksTransform.java:114-116 | changes the construction type and nothing else |
| ToBricks.ToBricksTransform.SetBasicUnitSize | src/transforms/ToBricksTransform.java:127-131 | changes the size and nothing else |
| ToBricks.ToBricksTransform.BasicUnitSize | src/transforms/ToBricksTransform.java:133-138 | the pixel size for SNOT_IN_2_BY_2, otherwise each side divided (truncating) by the type's unit size |
| ToBricks.ToBricksTransform.ArrayBestMatch | src/transforms/ToBricksTransform.java:196-257 | answers whether normal's distance is at most sideways's (normal wins ties); afterwards every pixel of the block holds the chosen stud colour and every other pixel is unchanged |
| ToBricks.ToBricksTransform.MatchBlock | src/transforms/ToBricksTransform.java:185 | records that choice, made on the block's original pixels, for block (x, y) alone |
| ToBricks.ToBricksTransform.MatchColumn | src/transforms/ToBricksTransform.java:184-186 | chooses and commits every block of a column on its original pixels, and touches no pixel outside the column |
| ToBricks.ToBricksTransform.MatchAll | src/transforms/ToBricksTransform.java:183-187 | every block is chosen on its original pixels and committed; pixels outside the covered blocks are unchanged |
| ToBricks.ToBricksTransform.BestMatch | src/transforms/ToBricksTransform.java:158-191 | memo hit, or a zero width or height, leaves everything unchanged; a size mismatch is reported before the grids are stored; otherwise the grids are stored, the choice array is (w/10) x (h/10) and holds each block's decision, every block is committed and the rest of the image is unchanged |
| ToBricks.ToBricksTransform.Snapshot | src/transforms/ToBricksTransform.java:27-28 | the stored grids and the choice array, read as a well-formed value whose blocks are those the grids and the choices make |
| ToBricks.ToBricksTransform.AddAll | src/transforms/ToBricksTransform.java:475-500 | counts the studs of every block, column by column, into the table; answers how many slots went from empty to filled; nothing before the first bestMatch |
| ToBricks.ToBricksTransform.LastUsedColorCounts | src/transforms/ToBricksTransform.java:503-512 | the compacted table of the last rendering's studs: one entry per used colour, empty before the first bestMatch, counts adding up to ten per block |
| ToBricks.ToBricksTransform.BuildLastInstructions | src/transforms/ToBricksTransform.java:515-545 | the calls are those of the clipped window's studs in column, block, row and stud order, numbered from 0 |

## Left out

- Drawing is not modelled: `drawSnot`, `snot`, `drawAll`, `draw`, `drawLastInstructions` and `paintIcon`. They are Graphics2D rendering with floating-point scales, fonts and ovals.
- The scale, dithering and threshold transforms are not part of this model, nor are the getters that configure them (`getBrickFromSideTransform` and the others). Neither are `SizeInfo`, `LEGOColorLookUp`, `ProgressCallback` and `ColorController`.
- `setColors` and `setPropagationPercentage` only forward to those transforms and clear their buffers, so they are left out. So are the constructor's palette and propagation-percentage arguments.
- `ColorLegend` and `DataFile` are Swing UI and file I/O, and are not part of this model.
- `ColorDifference.diffCIE94` is not part of this model. It is an arbitrary function parameter, so every property holds for any colour metric.
- Colors.ContrastingTextColor: it decides with the exact integer 299 R + 587 G + 114 B < 128000. The source computes the luminance in double precision, so the two may differ when the luminance is within rounding of 128.
- ToBricks.ToBricksTransform.ArrayBestMatch: the distance sums are unbounded integers. The source's int sums could overflow for a metric with large values.
- ToBricks.ToBricksTransform.BestMatch:
  - Unless the memo already holds these two grids, it requires both grids to hold every stud of the (w/10) x (h/10) blocks when the image size matches. The source does not check this and fails with an index error otherwise. On a memo hit the source returns before reading either grid, and the model requires nothing of them.
  - The copy through `getRGB`/`setRGB` is not modelled: the method works on the raster array itself.
  - The exceptions for a size mismatch are the outcomes `WidthMismatch` and `HeightMismatch`.
- ToBricks.ToBricksTransform.AddAll and ToBricks.ToBricksTransform.LastUsedColorCounts require every used colour id to be below the table size; the source would fail with an index error. Colour ids are `nat` in `LegoColor`, while the source's id is an `int`; a negative id would make the same table indexing fail, so the model leaves such ids out. The source reads the maximum id from a global, which is the parameter `maxId` here.
- ToBricks.ToBricksTransform.BuildLastInstructions:
  - It requires the choice array to exist, and the window to start at a non-negative block whenever it visits a block. It also requires the choice array to have a column whenever the column loop is entered, because the source reads the height of column 0 there; with zero columns that happens when `bounds.x` is negative, even though no block is visited. Where the source would fail these with an exception, the model has preconditions.
  - The Java int sums `bounds.x + bounds.width` and `bounds.y + bounds.height` are unbounded here; the source could wrap around for huge rectangles.
  - A negative `bounds.x` still enters the source's column loop. It fails at the first block it reads when the row range is nonempty; that case is excluded by a precondition. When the row range is empty it emits nothing, and `Span` normalises that window to an empty range, so the model emits nothing as well.
  - The window ranges are clipped by `Span`, the model's normalisation of the two loops' bounds: it gives an empty range whenever nothing is emitted.
- The `CountingLEGOColor` counts are values in the table, not shared mutable objects. The array `lastUsedColorCounts` returns shares its entries with the table in the source; this aliasing is not modelled.
- The two stud grids are stored as values. The source stores references to the caller's grids (src/transforms/ToBricksTransform.java:173-174), so a change made to a grid in place after `bestMatch` would be seen by `addAll` and `buildLastInstructions` there; the model keeps the grids as they were when `bestMatch` ran.
- `drawAllSpaced` and `drawLastColors` only draw, like the other drawing methods, and are not modelled.
- `transform` and `getTransformedSize` delegate to the `ToBricksType` enum and the transforms it uses, which are not part of this model. The same holds for the getters `getSnotOutputTransform`, `getBrickFromSideTransform`, `getMainTransform`, `getPlateFromSideTransform`, `getRTransform`, `getVerticalPlateFromSideTransform` and `getBrickFromTopTransform`. `getToBricksType` only reads the field `toBricksType`, which the model exposes directly.
- Every palette colour is taken as opaque: `Argb` puts alpha 0xFF in the top byte, as `Color.getRGB()` does for a colour with alpha 255. A palette colour with transparency would be committed with a different alpha at src/transforms/ToBricksTransform.java:248; this is not modelled.
- The memo compares a generation number for each grid instead of Java reference identity.
