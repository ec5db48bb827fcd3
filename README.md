# TBTK: electron-fluctuation vertex extraction, amplitude tabulation and the tick/tock timer

This project models three parts of TBTK in Dafny and proves properties of the models.

- **The electron-fluctuation-vertex property extractor** (`vertex.dfy`, `property_extractor.dfy`, `index_tree.dfy`).
  - A request is a list of compound index patterns.
  - The extractor splits each pattern into five components: a momentum (k) pattern and four intra-block patterns. It refuses a pattern that does not split into five, or whose intra-block components 2 to 4 differ in length from component 1.
  - The k pattern is extended with one `IDX_ALL` wildcard per subindex of the first intra-block component. Each match of the extended pattern is cut back to a momentum index.
  - Under each momentum index, the four intra-block patterns are enumerated. Every combination of the four matches is recorded as the compound index `{kIndex, index0, index1, index2, index3}`, each intra-block match with the momentum index cut off.
  - This runs twice. The pass without summation wildcards gives `allIndices`. The pass with them gives the vertex's memory layout.
  - The vertex's energy axis is taken from the solver's charge susceptibility: real bounds and resolution, or a bosonic Matsubara index range and fundamental energy. Any other energy type is an error.
  - The callback adds a self-energy vertex into the result buffer at an offset.
  - Both `setEnergyWindow` overloads refuse every call.
  - `FluctuationVertex` defines what the extractor computes as functions on values. `PropertyExtractor` holds the extractor as the program runs it: loops that fill index trees, proved equal to those functions.
- **`AmplitudeSet::tabulate`** (`amplitude_table.dfy`). It flattens a hopping-amplitude set into an integer table.
  - There is one row per amplitude. The row width is twice the longest from-index.
  - The from-index fills the left half, the to-index the right half, and every other cell is -1.
  - The table is an `array<int>` written in place, by the same two passes as the source.
- **`Util::Timer`** (`timer.dfy`). It keeps two parallel stacks of timestamps and tags.
  - `tock` pops the most recent pair and prints the elapsed time as hours, minutes, seconds, milliseconds, microseconds and nanoseconds. A unit is shown only when it or a larger unit is positive.
  - With empty stacks, `tock` prints an error instead.
  - Truncating C++ division and remainder are written out, so negative durations behave as in the source.

`wrappers.dfy` holds the `Outcome` and `Result` datatypes used for the error paths.

## Model

All source paths are in the TBTK repository.

| member | source | states |
|---|---|---|
| FluctuationVertex.Validate | Lib/src/PropertyExtractor/ElectronFluctuationVertex.cpp:110-130 | A split pattern passes exactly when it has five components and components 2-4 have as many subindices as component 1. The error is `ComponentCount(n)` exactly when the count `n` is not 5. A five-component pattern can only fail with a clash, which names the first component (2, 3 or 4) whose size differs, and all components before it agree. |
| FluctuationVertex.FirstClash | Lib/src/PropertyExtractor/ElectronFluctuationVertex.cpp:119-130 | Scanning from component `n` passes iff every later component matches component 1's size. A failure names the first mismatching component. |
| PropertyExtractor.CheckPattern | Lib/src/PropertyExtractor/ElectronFluctuationVertex.cpp:110-130 | The two assertions, executed as a loop, give exactly the verdict `Validate`. |
| FluctuationVertex.ExtendedKPattern | Lib/src/PropertyExtractor/ElectronFluctuationVertex.cpp:138-144 | The extended k pattern is the k pattern followed by exactly `count` `IDX_ALL` wildcards. |
| PropertyExtractor.ExtendKPattern | Lib/src/PropertyExtractor/ElectronFluctuationVertex.cpp:142-144 | The `push_back` loop builds `ExtendedKPattern`. |
| IndexTrees.GetSubIndex | Lib/src/PropertyExtractor/ElectronFluctuationVertex.cpp:159-162 | A sub-index from `first` to `last` inclusive has `last - first + 1` entries, and entry `n` is subindex `first + n`. |
| IndexTrees.SubIndexSplit | Lib/src/PropertyExtractor/ElectronFluctuationVertex.cpp:189-193 | The momentum part and the rest of an enumerated index join back to the whole index. |
| FluctuationVertex.KIndices | Lib/src/PropertyExtractor/ElectronFluctuationVertex.cpp:158-162 | Each momentum index has the k pattern's length and is the first subindices of its match. |
| FluctuationVertex.Suffixes | Lib/src/PropertyExtractor/ElectronFluctuationVertex.cpp:189-193 | Each intra-block index is its match with the momentum part dropped, and the momentum part followed by it is the match again. |
| FluctuationVertex.PatternKIndices | Lib/src/PropertyExtractor/ElectronFluctuationVertex.cpp:146-162 | Every momentum index of a pattern is as long as its k pattern. |
| FluctuationVertex.KIndexAt | Lib/src/PropertyExtractor/ElectronFluctuationVertex.cpp:152-162 | The `i`-th momentum index is the sub-index of the `i`-th match of the extended k pattern. |
| FluctuationVertex.Block | Lib/src/PropertyExtractor/ElectronFluctuationVertex.cpp:164-181 | Every index enumerated for `Index(kIndex, indices[j])` is at least as long as `kIndex`, so cutting it after the momentum part is defined. |
| FluctuationVertex.Product | Lib/src/PropertyExtractor/ElectronFluctuationVertex.cpp:183-241 | No ensures of its own: the set of five-component compound indices the four nested loops record for one momentum index and four lists. ProductMember, ProductEmpty and ProductExtend0 to ProductExtend3 state its properties. |
| FluctuationVertex.BlockIndices | Lib/src/PropertyExtractor/ElectronFluctuationVertex.cpp:164-241 | No ensures of its own: the compound indices recorded under one momentum index. BlockMember and PropertyExtractor.AddBlock state its properties. |
| FluctuationVertex.KBlocks | Lib/src/PropertyExtractor/ElectronFluctuationVertex.cpp:152-241 | No ensures of its own: the compound indices recorded for a list of momentum indices. KBlocksMember and KBlocksSnoc state its properties. |
| FluctuationVertex.PatternIndices | Lib/src/PropertyExtractor/ElectronFluctuationVertex.cpp:138-241 | No ensures of its own: the compound indices one split pattern stands for. PatternIndicesSound and PatternIndicesComplete state its properties. |
| FluctuationVertex.ProductMember | Lib/src/PropertyExtractor/ElectronFluctuationVertex.cpp:183-241 | The four nested loops record `c` iff `c` has five components, its first is the momentum index and each other component is drawn from its own list. |
| FluctuationVertex.ProductEmpty | Lib/src/PropertyExtractor/ElectronFluctuationVertex.cpp:183-241 | If any of the four enumerations is empty, nothing is recorded. |
| FluctuationVertex.ProductExtend0 | Lib/src/PropertyExtractor/ElectronFluctuationVertex.cpp:183-188 | One more iteration of the outermost loop adds exactly the compound indices through the new `index0`. |
| FluctuationVertex.ProductExtend1 | Lib/src/PropertyExtractor/ElectronFluctuationVertex.cpp:194-200 | One more iteration of the second loop adds exactly the compound indices through the new `index1`. |
| FluctuationVertex.ProductExtend2 | Lib/src/PropertyExtractor/ElectronFluctuationVertex.cpp:206-212 | One more iteration of the third loop adds exactly the compound indices through the new `index2`. |
| FluctuationVertex.ProductExtend3 | Lib/src/PropertyExtractor/ElectronFluctuationVertex.cpp:218-237 | One more iteration of the innermost loop adds exactly the one compound index it builds. |
| FluctuationVertex.KBlocksMember | Lib/src/PropertyExtractor/ElectronFluctuationVertex.cpp:152-241 | A compound index is recorded for a list of momentum indices iff it is recorded for one of them. |
| FluctuationVertex.KBlocksSnoc | Lib/src/PropertyExtractor/ElectronFluctuationVertex.cpp:152-241 | One more momentum index adds exactly the compound indices recorded under it. |
| FluctuationVertex.BlockMember | Lib/src/PropertyExtractor/ElectronFluctuationVertex.cpp:164-241 | A compound index recorded under `k` has five components and starts with `k`. Each later component is an index enumerated for `k` followed by that component's pattern, with `k`'s subindices cut off. |
| FluctuationVertex.SuffixSource | Lib/src/PropertyExtractor/ElectronFluctuationVertex.cpp:189-193 | Every intra-block index comes from an enumerated index long enough to cut. |
| FluctuationVertex.SuffixMember | Lib/src/PropertyExtractor/ElectronFluctuationVertex.cpp:189-193 | Every enumerated index yields its cut intra-block index. |
| FluctuationVertex.PatternIndicesSound | Lib/src/PropertyExtractor/ElectronFluctuationVertex.cpp:138-241 | Every compound index recorded for a pattern has five components. Its first is the momentum part of a match of the extended k pattern, and each of the other four is an intra-block match with the momentum part cut off. |
| FluctuationVertex.PatternIndicesComplete | Lib/src/PropertyExtractor/ElectronFluctuationVertex.cpp:152-241 | Conversely, every momentum index with any choice of one match per intra-block component is recorded. |
| FluctuationVertex.Refusal | Lib/src/PropertyExtractor/ElectronFluctuationVertex.cpp:107-130 | No ensures of its own: the verdict on a pattern list, stopping at the first failed assertion. RefusalPass, AcceptedAreValid, RefusalNamesFirst, RefusalKeepsFirst, AcceptNext and RefuseNext state its properties. |
| FluctuationVertex.Union | Lib/src/PropertyExtractor/ElectronFluctuationVertex.cpp:107-242 | No ensures of its own: the compound indices an accepted pattern list stands for. UnionSnoc and PreparedIndices state its properties. |
| FluctuationVertex.RefusalPass | Lib/src/PropertyExtractor/ElectronFluctuationVertex.cpp:107-130 | A pattern list is accepted iff every pattern validates, and then every pattern has five components. |
| FluctuationVertex.AcceptedAreValid | Lib/src/PropertyExtractor/ElectronFluctuationVertex.cpp:107-130 | In an accepted list, every pattern validates. |
| FluctuationVertex.RefusalNamesFirst | Lib/src/PropertyExtractor/ElectronFluctuationVertex.cpp:107-130 | A refusal names the first pattern that fails validation, with that pattern's reason. Every earlier pattern validates. |
| FluctuationVertex.RefusalKeepsFirst | Lib/src/PropertyExtractor/ElectronFluctuationVertex.cpp:107-130 | Once a prefix is refused, the later patterns do not change the verdict (the process exits there). |
| FluctuationVertex.AcceptNext | Lib/src/PropertyExtractor/ElectronFluctuationVertex.cpp:107-130 | An accepted prefix followed by a valid pattern is accepted. |
| FluctuationVertex.RefuseNext | Lib/src/PropertyExtractor/ElectronFluctuationVertex.cpp:107-130 | An accepted prefix followed by an invalid pattern refuses the whole list at that pattern. |
| FluctuationVertex.UnionSnoc | Lib/src/PropertyExtractor/ElectronFluctuationVertex.cpp:107-242 | One more accepted pattern adds exactly the compound indices it stands for. |
| FluctuationVertex.Accumulated | Lib/src/PropertyExtractor/ElectronFluctuationVertex.cpp:460-461 | Element `offset + e` of the buffer gains `iv[e]`, and every other element is unchanged. |
| FluctuationVertex.AccumulationCommutes | Lib/src/PropertyExtractor/ElectronFluctuationVertex.cpp:446-462 | Two callbacks give the same buffer in either order. |
| FluctuationVertex.Prepared | Lib/src/PropertyExtractor/ElectronFluctuationVertex.cpp:101-444 | Preparation succeeds iff every pattern validates and the charge susceptibility is not fermionic Matsubara. When a pattern is refused, the failure is that refusal. |
| FluctuationVertex.PreparedIndices | Lib/src/PropertyExtractor/ElectronFluctuationVertex.cpp:105-384 | `allIndices` holds exactly the compound indices some pattern stands for without summation wildcards. The memory layout holds exactly those with them. |
| FluctuationVertex.PreparedWindow | Lib/src/PropertyExtractor/ElectronFluctuationVertex.cpp:398-443 | A real axis gives the susceptibility's bounds and resolution. A bosonic Matsubara axis gives its index range and fundamental energy. Any other type is `UnknownEnergyType`. |
| PropertyExtractor.AddProduct | Lib/src/PropertyExtractor/ElectronFluctuationVertex.cpp:183-241 | The outermost loop adds exactly the product of the four cut enumerations to the tree. |
| PropertyExtractor.AddProduct1 | Lib/src/PropertyExtractor/ElectronFluctuationVertex.cpp:194-239 | The second loop adds the product with `index0` fixed. |
| PropertyExtractor.AddProduct2 | Lib/src/PropertyExtractor/ElectronFluctuationVertex.cpp:206-238 | The third loop adds the product with `index0` and `index1` fixed. |
| PropertyExtractor.AddProduct3 | Lib/src/PropertyExtractor/ElectronFluctuationVertex.cpp:218-237 | The innermost loop adds one compound index per intra-block match. |
| PropertyExtractor.AddBlock | Lib/src/PropertyExtractor/ElectronFluctuationVertex.cpp:164-241 | For one momentum index, the tree gains exactly `BlockIndices`. |
| PropertyExtractor.AddPattern | Lib/src/PropertyExtractor/ElectronFluctuationVertex.cpp:138-241 | For one validated pattern, the tree gains exactly `PatternIndices`, and the linear-map flag is unchanged. |
| PropertyExtractor.AddNextPattern | Lib/src/PropertyExtractor/ElectronFluctuationVertex.cpp:108-241 | One pass of the pattern loop returns the pattern's verdict. On failure it refuses the whole list at that pattern. On success the tree, which held the union for the earlier patterns, holds the union including this one. |
| PropertyExtractor.AddPatterns | Lib/src/PropertyExtractor/ElectronFluctuationVertex.cpp:107-242 | The verdict is `Refusal`. On acceptance the tree gains exactly the union over all patterns. |
| PropertyExtractor.ElectronFluctuationVertex.constructor | Lib/src/PropertyExtractor/ElectronFluctuationVertex.cpp:33-37 | The extractor refers to the given solver. |
| PropertyExtractor.ElectronFluctuationVertex.SetEnergyWindow | Lib/src/PropertyExtractor/ElectronFluctuationVertex.cpp:39-56 | Every call fails as unsupported. |
| PropertyExtractor.ElectronFluctuationVertex.SetMatsubaraEnergyWindow | Lib/src/PropertyExtractor/ElectronFluctuationVertex.cpp:58-99 | Every call fails as unsupported. |
| PropertyExtractor.ElectronFluctuationVertex.CalculateInteractionVertex | Lib/src/PropertyExtractor/ElectronFluctuationVertex.cpp:101-444 | The two passes, the linear maps and the energy dispatch give exactly `Prepared`. |
| PropertyExtractor.ElectronFluctuationVertex.CalculateInteractionVertexCallback | Lib/src/PropertyExtractor/ElectronFluctuationVertex.cpp:446-462 | The buffer becomes `Accumulated(old buffer, offset, selfEnergyVertex(index))`. |
| IndexTrees.IndexTree.Add | Lib/src/PropertyExtractor/ElectronFluctuationVertex.cpp:230-236 | Adding a compound index adds it to the tree's set and leaves the linear-map flag unchanged. |
| IndexTrees.IndexTree.GenerateLinearMap | Lib/src/PropertyExtractor/ElectronFluctuationVertex.cpp:243 | The linear map is built, and the contents are unchanged. |
| IndexTrees.IndexTree.constructor | Lib/src/PropertyExtractor/ElectronFluctuationVertex.cpp:105-106 | A new index tree holds no compound indices and has no linear map. The memory-layout tree at line 246 is built the same way. |
| AmplitudeTable.MaxFromSize | TBTK/calc/TightBindingLib/src/AmplitudeSet.cpp:44-54 | The result bounds every from-index length and is attained by one (0 for no amplitudes). |
| AmplitudeTable.CountAndMeasure | TBTK/calc/TightBindingLib/src/AmplitudeSet.cpp:42-54 | The first pass counts the amplitudes and finds the longest from-index. |
| AmplitudeTable.Table | TBTK/calc/TightBindingLib/src/AmplitudeSet.cpp:56-71 | No ensures of its own: the table `tabulate` produces. TableShape, TableAt and Tabulate state its properties. |
| AmplitudeTable.Rows | TBTK/calc/TightBindingLib/src/AmplitudeSet.cpp:62-71 | No ensures of its own: the rows in iteration order. RowsLength, RowsAt and NextRow state its properties. |
| AmplitudeTable.Row | TBTK/calc/TightBindingLib/src/AmplitudeSet.cpp:65-68 | No ensures of its own: one amplitude's row. RowCells states its properties. |
| AmplitudeTable.Cell | TBTK/calc/TightBindingLib/src/AmplitudeSet.cpp:65-68 | No ensures of its own: the value at one column of a row, read off the writes' index arithmetic. RowCells, RowsAt and TableAt state what it is. |
| AmplitudeTable.Blank | TBTK/calc/TightBindingLib/src/AmplitudeSet.cpp:58-60 | No ensures of its own: the table before the second pass. BlankIsFill states its properties. |
| AmplitudeTable.TableShape | TBTK/calc/TightBindingLib/src/AmplitudeSet.cpp:56-58 | The table has `numHA * (2 * maxIndexSize)` cells, and none for no amplitudes. |
| AmplitudeTable.RowsLength | TBTK/calc/TightBindingLib/src/AmplitudeSet.cpp:56-58 | Each row is `2 * half` wide, so `k` rows take `2 * half * k` cells. |
| AmplitudeTable.BlankIsFill | TBTK/calc/TightBindingLib/src/AmplitudeSet.cpp:58-60 | The table filled with -1 is `numHA` blank rows. |
| AmplitudeTable.TableAt | TBTK/calc/TightBindingLib/src/AmplitudeSet.cpp:63-71 | In row `r`, the left half holds the from-index and the right half the to-index, with -1 in every other cell. |
| AmplitudeTable.RowsAt | TBTK/calc/TightBindingLib/src/AmplitudeSet.cpp:63-71 | Cell `c` of row `r` sits at `dims[1] * r + c` and holds the value the two writes put there, or -1. |
| AmplitudeTable.RowCells | TBTK/calc/TightBindingLib/src/AmplitudeSet.cpp:65-68 | A row read cell by cell gives the from-index, padding, the to-index, padding. |
| AmplitudeTable.SpliceRow | TBTK/calc/TightBindingLib/src/AmplitudeSet.cpp:65-68 | Writing a row's cells over a blank row leaves the row and nothing else changed. |
| AmplitudeTable.WriteRow | TBTK/calc/TightBindingLib/src/AmplitudeSet.cpp:65-68 | The two inner loops turn the blank row at `dims[1] * counter` into the amplitude's row. |
| AmplitudeTable.WriteRows | TBTK/calc/TightBindingLib/src/AmplitudeSet.cpp:62-71 | The second pass over the reset iterator turns the blank table into all rows, in iteration order. |
| AmplitudeTable.NextRow | TBTK/calc/TightBindingLib/src/AmplitudeSet.cpp:63-71 | Before the write for amplitude `counter`, its blank row starts at `2 * half * counter`. After the write, the written rows are the earlier rows followed by the new one. |
| AmplitudeTable.Tabulate | TBTK/calc/TightBindingLib/src/AmplitudeSet.cpp:41-72 | `dims` becomes the amplitude count and twice the longest from-index, and the fresh table is `Table(amps)`. |
| Timer.TDiv | TBTK/calc/TightBindingLib/include/Util.h:52-57 | Truncating division keeps the sign of the dividend. |
| Timer.TMod | TBTK/calc/TightBindingLib/include/Util.h:53-57 | The C++ remainder recombines with the quotient, is smaller than the divisor in magnitude and has the dividend's sign. |
| Timer.TDivTDiv | TBTK/calc/TightBindingLib/include/Util.h:52-57 | Casting to a unit and then to a coarser one equals casting straight to the coarser one. |
| Timer.Decompose | TBTK/calc/TightBindingLib/include/Util.h:52-57 | Minutes and seconds lie strictly between -60 and 60, and the sub-second parts strictly between -1000 and 1000. All parts are non-negative for a non-negative duration and non-positive for a non-positive one. |
| Timer.DecomposeRecombines | TBTK/calc/TightBindingLib/include/Util.h:52-57 | The six printed numbers recombine to the elapsed nanoseconds, whatever the sign. |
| Timer.ShownParts | TBTK/calc/TightBindingLib/include/Util.h:60-71 | No ensures of its own: the parts selected by the six output conditions. ShownPartsSuffix, ShownPartAt, ShownPartsCascade and NothingShownWhenNotPositive state its properties. |
| Timer.FirstPositive | TBTK/calc/TightBindingLib/include/Util.h:60-71 | The index of the largest positive part: all larger parts are not positive. |
| Timer.ShownPartsSuffix | TBTK/calc/TightBindingLib/include/Util.h:60-71 | The printed parts are exactly the units from the largest positive one down to nanoseconds. |
| Timer.ShownPartAt | TBTK/calc/TightBindingLib/include/Util.h:60-71 | A unit is printed iff it or a larger unit is positive. |
| Timer.ShownPartsCascade | TBTK/calc/TightBindingLib/include/Util.h:60-71 | The same, for all six units at once. |
| Timer.NothingShownWhenNotPositive | TBTK/calc/TightBindingLib/include/Util.h:60-71 | A zero or negative duration prints no parts. |
| Timer.NatToString | TBTK/calc/TightBindingLib/include/Util.h:59 | The stack depth prints as a non-empty string of decimal digits with no leading zero (only 0 itself starts with `0`). |
| Timer.NatToStringRoundTrip | TBTK/calc/TightBindingLib/include/Util.h:59 | Reading the printed digits back gives the number printed. |
| Timer.IntToString | TBTK/calc/TightBindingLib/include/Util.h:61-71 | No ensures of its own: an `int` as the output stream prints it. NegativeIntReadsBack and NonNegativeIntReadsBack state its properties. |
| Timer.NegativeIntReadsBack | TBTK/calc/TightBindingLib/include/Util.h:61-71 | A negative part prints as a minus sign followed by the digits of its magnitude, and those digits read back to the magnitude. |
| Timer.NonNegativeIntReadsBack | TBTK/calc/TightBindingLib/include/Util.h:61-71 | Any other part prints as its digits alone, which read back to it. |
| Timer.RenderShown | TBTK/calc/TightBindingLib/include/Util.h:61-71 | No ensures of its own: the text of one printed part. RenderShownFrame states its properties. |
| Timer.RenderShownFrame | TBTK/calc/TightBindingLib/include/Util.h:61-71 | A printed part starts with its value and ends with its unit suffix and a space. |
| Timer.RenderAll | TBTK/calc/TightBindingLib/include/Util.h:60-71 | No ensures of its own: the shown parts printed one after another, each by RenderShown. RenderShownFrame states the layout of each part. |
| Timer.TockHead | TBTK/calc/TightBindingLib/include/Util.h:59 | No ensures of its own: the `"(" << timestamps.size() << ") "` write. TockLineFrame states that every line starts with it. |
| Timer.TockTail | TBTK/calc/TightBindingLib/include/Util.h:72 | No ensures of its own: the `"\t" << tag << "\n"` write. TockLineFrame states that every line ends with it. |
| Timer.TockLine | TBTK/calc/TightBindingLib/include/Util.h:59-72 | No ensures of its own: the line `tock` prints after popping. TockLineFrame and SilentTock state its properties. |
| Timer.TockLineFrame | TBTK/calc/TightBindingLib/include/Util.h:59-72 | A printed line starts with the stack depth in parentheses followed by a space, and ends with a tab, the tag and a newline. |
| Timer.SilentTock | TBTK/calc/TightBindingLib/include/Util.h:59-72 | With zero or negative elapsed time the line holds only the depth and the tag. |
| Timer.Text | TBTK/calc/TightBindingLib/include/Util.h:59-75 | No ensures of its own: the characters of a printed line. A report is `TockLine`, stated by TockLineFrame and SilentTock; the missing-tick case is the error line of line 75. |
| Timer.Timer.Valid | TBTK/calc/TightBindingLib/include/Util.h:39-51 | The timestamp and tag stacks have the same height. The constructor, Tick and Tock each keep it. |
| Timer.Timer.constructor | TBTK/calc/TightBindingLib/include/Util.h:33-36 | Both stacks start empty, and nothing has been printed. |
| Timer.Timer.Tick | TBTK/calc/TightBindingLib/include/Util.h:39-42 | Pushes the timestamp and the tag, and prints nothing. |
| Timer.Timer.Tock | TBTK/calc/TightBindingLib/include/Util.h:44-77 | With a tick pending, it pops both stacks and prints the remaining depth, the decomposed elapsed time and the popped tag. With none, it prints the error line and changes nothing else. |
| Timer.TickTockRestores | TBTK/calc/TightBindingLib/include/Util.h:18-22 | A tick followed by a tock restores both stacks and prints the time between them with the tick's tag. |

## Left out

- Index, IndexTree and `generateIndexTree` internals (their source is not part of this model). The enumeration of stored indices matching a pattern is a function parameter. It is assumed only to yield indices at least as long as the pattern (`KeepsPatternLength`).
- IndexTree is modelled as the set of compound indices added to it, so the order of the tree and its linear offsets are not modelled. The offsets `generateLinearMap` assigns are not modelled either; only the fact that it was called is.
- The `calculate` driver of the base property extractor is not part of this model. It iterates over `allIndices` and calls the callback with memory-layout offsets. Its effect is stated through `AccumulationCommutes` and the callback's contract.
- The solver is not part of this model. It is a datatype of functions: enumeration, charge susceptibility and self-energy vertex. `complex<double>` is a pair of exact reals, and only its addition is used, so floating-point rounding is not modelled.
- `Index::split` is a function parameter. The `Index(kIndex, indices[n+1])` constructor is modelled as sequence concatenation.
- GetSubIndex: `Index::getSubIndex` is not part of this model. It is assumed to return the subindices from `first` to `last`, both included, which is how both call sites use it.
- The value of `IDX_ALL` is not in the modelled files. It is -1 here, and no proof depends on the value.
- A call that ends the process (`TBTKExit`, a failing `TBTKAssert`) is a failure result naming the cause. The error text is not modelled.
- PatternIndicesSound: it does not state that the enumerated intra-block indices begin with the momentum index. The enumeration is abstract and no such property is assumed.
- CalculateInteractionVertexCallback: it requires the self-energy vertex to fit in the buffer from `offset` on. The source writes without checking, and relies on its caller, the `calculate` driver, to pass an offset from the memory layout.
- CalculateInteractionVertex: an empty k pattern makes the source compute `getSize()-1` in unsigned arithmetic. The model takes the empty sub-index instead.
- Tabulate: it requires that no to-index is longer than the longest from-index. The source sizes rows by from-indices only, and it writes outside the row, or outside the table, otherwise.
- Tabulate: 32-bit `int` overflow of `dims[0]*dims[1]` and of the cell positions is not modelled.
- The `value` field of a hopping amplitude is not modelled, because `tabulate` never reads it. The amplitude-set iterator is the sequence of amplitudes it visits.
- Timer: the system clock is a nanosecond count passed by the caller. Standard output is the sequence of printed lines, each recorded by what it reports; `Text` gives its characters. The static stacks are fields of one `Timer` object.
- Tick: it takes the tag as an argument; `tick()` with the default empty tag is `Tick("", now)`.
- Decompose: it does not model narrowing the hour count to a 32-bit `int`.
- All other files of the repository (solvers, lattices, property containers, streams, example programs) are not part of this model.
