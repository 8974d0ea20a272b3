# svprops — a Dafny model of the per-site SV statistics

svprops reads a VCF/BCF file of structural-variant calls. For each record it writes one tab-separated row of site statistics to standard output, below a header line of column names:

- coordinates and size;
- alternate allele count and frequency;
- the singleton carrier;
- the missing-call rate;
- selected INFO values;
- medians of per-sample evidence (genotype quality, read-support ratios, read depth), taken over non-carriers and heterozygous carriers.

Which optional columns appear depends on the keys the header declares.

This project models the core of `src/svprops.cpp`. Each piece keeps the form it has in the program:

- `wrappers.dfy`: `Option`.
- `missing.dfy` (module `Missing`): the per-type missing-value tests (`_missing`). It covers the integer sentinels of widths 8, 16 and 32, the float "missing" pattern, the empty or "." string and the unset flag.
- `vcf.dfy` (module `Vcf`): the decoded header and record, as values. `_isKeyPresent(hdr, key)` becomes `key in hdr.keys`.
- `schema.dfy` (module `Schema`): the column schema.
  - `BuildColumnMap` builds the name-to-position map `cMap` with a running field index.
  - `FillHeader` inverts the map into the ordered column list `cHeader`.
  - Both are stated against `Columns(keys)`, which keeps every possible column whose gate key is declared.
- `median.dfy` (module `Median`): `_getMedian`.
  - The selection works in place on an array (`NthElement`).
  - It is specified by `MedianOf(s) == Sort(s)[|s| / 2]`, with 0 for an empty vector.
- `classify.dfy` (module `Classify`): the per-sample loop (`ClassifySamples`).
  - Its result is stated as `Tallied`, which is built from reference definitions by genotype class: `IndicesOf`, `CountOf`, `AlleleCount`, `EvidenceOf` and `CarrierOf`.
- `site.dfy` (module `Site`): the rest of the record loop.
  - the size derivation;
  - the derived values after the sample pass (`Finish`);
  - the row written column by column (`ProcessRecord`);
  - the header line (`WriteHeader`);
  - the whole output (`Run`, as `Table`).
- `layout.dfy` (module `Layout`): tab-joined lines (`Join`, read back by `Split`) and decimal integers (`Decimal`, read back by `ParseInt`).

Every value the program prints as a `double` is written through a formatting function parameter `fmt`. That function receives a `Cell` naming what the double is computed from. Integers and strings are written exactly.

Where this description of the program and its code differ, the model follows the code:

- **Median.** The median of an even-length vector is its upper middle element, `nth_element` at `n / 2` (`src/svprops.cpp:39-40`). It is not the mean of the two middle values.
- **Column order.** The `fic`, `rsq` and `hwepval` columns come before the GQ, RC and DV pairs (`src/svprops.cpp:146-163`).
- **Insertion size.** For an insertion, INSLEN overrides the END-derived size whatever END says (`src/svprops.cpp:266-268`).
- **`precise` column.** It is gated by the header key `IMPRECISE` but prints the `PRECISE` flag as 1 or 0 (`src/svprops.cpp:147`, `194-195`, `303`).
- **`ci` column.** It prints the second CIPOS value (`src/svprops.cpp:304`).
- **Singleton.** A homozygous-alternate sample raises `ac[1]` by 2 and never sets the singleton. After it, `ac[1]` is at least 2, and later samples only raise it, so it never comes back to 1. So "singleton" names a sample only when the record has exactly one heterozygous carrier and no homozygous one (`Classify.Singleton`).

## Model

| member | source | states |
|---|---|---|
| Missing.SentinelIsLeastOfWidth | src/svprops.cpp:67-77 | an int8, int16 or int32 value is missing exactly when it is the least value of its width, -2^(bits-1); every other value counts as present |
| Missing.MissingTextShape | src/svprops.cpp:79-81 | a string is missing exactly when it is empty or is the single character '.' |
| Median.SortSorts | src/svprops.cpp:39 | the reference order used to specify selection is sorted and a permutation of its input |
| Median.SelectedIsSortedAt | src/svprops.cpp:39 | any permutation partitioned around position k holds at k the element the sorted order puts there |
| Median.MedianRank | src/svprops.cpp:39-40 | the median of a non-empty vector is one of its elements; at most n/2 elements are smaller and more than n/2 are smaller or equal |
| Median.RankUnique | src/svprops.cpp:39-40 | at most one value has a given rank, so the selected element is unique even among equal values |
| Median.MedianOfFourIsUpperMiddle | src/svprops.cpp:39-40 | on an even-length vector the median is the upper middle element (3 of 1, 2, 3, 4), not an average |
| Median.NthElement | src/svprops.cpp:39 | after the call the array is a permutation of its old contents, partitioned around k, with the k-th smallest old element at k |
| Median.GetMedian | src/svprops.cpp:32-42 | the result is 0 for an empty vector, otherwise the element of rank n/2 of the old contents; the vector is permuted in place and partitioned around n/2 |
| Median.MedianOfVector | src/svprops.cpp:32-42 | the median of a value vector, computed on a scratch array; for a non-empty vector it is an element of rank n/2 |
| Schema.BuildColumnMap | src/svprops.cpp:134-163 | cMap maps exactly the enabled columns, each to its position in the schema |
| Schema.AddColumn | src/svprops.cpp:137-145 | inserting one name at the running field index extends the map of the columns so far by that name, at the next position |
| Schema.AddGated | src/svprops.cpp:146-163 | a gated step inserts its names (one or a pair) only when the header declares the key |
| Schema.FillHeader | src/svprops.cpp:165-167 | cHeader has one entry per map key, holds each key at its mapped position, and equals the schema's column list |
| Schema.AppendedIsSelected | src/svprops.cpp:137-163 | the columns in the order the construction appends them are exactly the possible columns filtered by their gates |
| Schema.SchemaPrefix | src/svprops.cpp:137-145 | every schema starts with the nine fixed columns |
| Schema.FixedPositions | src/svprops.cpp:137-145 | positions 0 to 8 hold chr, start, end, id, size, vac, vaf, singleton and missingrate |
| Schema.ColumnPresence | src/svprops.cpp:146-163 | a name is a column exactly when it is a possible column whose gate key is declared |
| Schema.PairsTogether | src/svprops.cpp:152-163 | refgq/altgq appear exactly when GQ is declared, rdratio/medianrc exactly when RC is, refratio/altratio exactly when DV is |
| Schema.WithoutKey | src/svprops.cpp:146-163 | undeclaring one key removes exactly the columns it gates and keeps the order of the rest |
| Schema.ColumnsDistinct | src/svprops.cpp:134-163 | no column name occurs twice, so the map loses nothing |
| Schema.IndexMapInverts | src/svprops.cpp:165-167 | for distinct names the map has exactly those keys, as many entries as names, and maps the i-th name to i |
| Schema.ColumnsTabFree | src/svprops.cpp:137-163 | no column name contains a tab |
| Layout.WriteFields | src/svprops.cpp:170-173 | writing a tab before every field but the first yields the fields joined by single tabs |
| Layout.SplitJoin | src/svprops.cpp:170-173 | splitting a tab-joined line of tab-free fields at its tabs gives back the fields, in order |
| Layout.JoinTabs | src/svprops.cpp:170-173 | a joined line of n tab-free fields holds exactly n - 1 tabs |
| Layout.DecimalRoundTrip | src/svprops.cpp:291-298 | an integer written in decimal is a non-empty tab-free field that reads back as the same integer |
| Classify.ClassifySamples | src/svprops.cpp:214-263 | the per-sample loop's allele counts, uncalled count, carrier and seven evidence vectors are Tallied, the by-class reference result |
| Classify.CountSample | src/svprops.cpp:219-262 | one sample's step (both alleles counted when called, the carrier taken when a heterozygous call makes ac[1] 1, otherwise one more uncalled) keeps allele and uncalled counts and the carrier equal to their reference definitions over the samples seen |
| Classify.CollectEvidence | src/svprops.cpp:219-261 | a called 0/0 sample adds to the non-carrier vectors, a called heterozygous sample to the carrier vectors, and any other sample to neither; after sample i the seven vectors are the by-class evidence of the samples seen so far |
| Classify.AddNonCarrier | src/svprops.cpp:223-241 | a 0/0 sample appends its GQ (when collected), depth ratio and read count (when RC is declared) and support ratio (when DV is declared), keeping each vector equal to the non-carrier evidence so far |
| Classify.AddHetCarrier | src/svprops.cpp:244-259 | a heterozygous sample appends its GQ, depth ratio and support ratio under the same gates, keeping each vector equal to the carrier evidence so far |
| Classify.PushGq | src/svprops.cpp:225-233 | GQ is appended only when GQ is declared as integer or real, and a missing value enters as 0 |
| Classify.PushSupport | src/svprops.cpp:238-241 | the support ratio is appended when DV is declared: split reads for a precise call, discordant pairs otherwise |
| Classify.PushDepthRatio | src/svprops.cpp:234-236 | the depth ratio rc/(rcl+rcr) is appended when RC is declared |
| Classify.PushDepth | src/svprops.cpp:234-235 | the baseline read count is appended when RC is declared |
| Classify.EvidenceByIndex | src/svprops.cpp:223-259 | each evidence vector of a class has one entry per sample of that class, and the j-th entry is the evidence of the j-th such sample in sample order |
| Classify.AllelesByClass | src/svprops.cpp:219-222 | ac[0] is twice the non-carriers plus the heterozygous carriers; ac[1] is the heterozygous carriers plus twice the homozygous ones; every sample is in one class |
| Classify.CallAccounting | src/svprops.cpp:218-262 | after the pass, uncalled plus called samples are all samples, and ac[0] + ac[1] is twice the called samples |
| Classify.CarrierInvariant | src/svprops.cpp:245 | whenever ac[1] is 1, exactly one heterozygous carrier has been seen and rareCarrier names it |
| Classify.Singleton | src/svprops.cpp:245-264 | the singleton column names the only heterozygous carrier when there is exactly one and no homozygous carrier, and is "NA" otherwise |
| Site.DeriveSize | src/svprops.cpp:266-268 | the size is INSLEN for an insertion, else END minus the 0-based position when END is present, else 1 |
| Site.SizeSpansColumns | src/svprops.cpp:266-268 | except for an insertion, the size counts the 1-based positions from the start column to the end column inclusive; an insertion's size is INSLEN |
| Site.Finish | src/svprops.cpp:264-285 | from the pass's tally, the singleton, size and the GQ and read-count medians are those Summarize defines |
| Site.ProcessRecord | src/svprops.cpp:288-315 | a record's row is its cells under the schema's columns, in order, joined by tabs |
| Site.WriteHeader | src/svprops.cpp:134-174 | cHeader is the schema's column list and the header line is those names joined by tabs |
| Site.Run | src/svprops.cpp:169-316 | the output is the header line followed by one row per record, in record order |
| Site.TableHead | src/svprops.cpp:169-174 | the first output line is the header line |
| Site.TableRow | src/svprops.cpp:179-316 | line i + 1 of the output is the row of record i |
| Site.HeaderSplitsIntoColumns | src/svprops.cpp:170-173 | the header line splits back into exactly the column names |
| Site.HeaderTabs | src/svprops.cpp:170-174 | the header line holds exactly one tab fewer than there are columns |
| Site.RowTabs | src/svprops.cpp:288-315 | with tab-free text values and formatting, a row holds exactly one tab fewer than there are columns, as many as the header line |
| Site.RowSplits | src/svprops.cpp:288-315 | with tab-free text values and formatting, a row splits back into exactly its fields |
| Site.RowSplitsIntoColumns | src/svprops.cpp:288-313 | with tab-free text values and formatting, a row has one field per header column, and field j is the cell of column j |
| Site.CellTabFree | src/svprops.cpp:290-313 | no cell of a record writes a tab when its text values and the formatting are tab-free |
| Site.SiteFields | src/svprops.cpp:290-296 | the first four fields are the chromosome, the 1-based start, END (or the start when END is undeclared) and the id |
| Site.CountFields | src/svprops.cpp:297-300 | fields 4, 5 and 7 are the size, ac[1] and the singleton |
| Site.RowReadsBack | src/svprops.cpp:290-300 | with tab-free text values and formatting, read back from the written row: field 1 is pos + 1; field 4 is the derived size; field 5 counts the alternate alleles over called samples; field 7 is the unique heterozygous carrier or "NA" |

## Left out

- Reading the file is not part of this model: opening it, reading the header, unpacking records and the htslib getters (`bcf_open`, `bcf_read`, `bcf_get_*`, `bcf_gt_allele`). The model starts from the decoded `Header` and `Record`, and header key lookup is the abstract set `hdr.keys`.
- The unused helper `_getInfoType` is not part of this model.
- Argument checking, the usage and open-failure exits and the final `free` calls are I/O or memory management and are not modelled.
- How a `double` is printed, and double arithmetic, are not modelled. Each double is handed to the parameter `fmt` as a `Cell` naming what it is computed from:
  - `vaf` is `ac[1] / (ac[0] + ac[1])`;
  - `missingrate` is `uncalled / nsamples`;
  - the support and depth ratios are kept as unevaluated `Ratio`s, because their quotients may be 0/0 (NaN);
  - `refratio`/`altratio` and `rdratio` are cells over those ratio vectors (`RatioMedian`, `RatioOfMedians`).
- The medians of the ratio vectors are not computed: `nth_element` over NaN-bearing doubles has no ordering to state. The medians of GQ and of the baseline read count are computed exactly (`Median.MedianOf` over `real`).
- Median.NthElement: it is specified by its result (partitioned, with the k-th smallest at k, a permutation), not by the introselect algorithm of the standard library; the body is a selection pass.
- Classify.ClassifySamples: the allele, uncalled and carrier counters are unbounded integers, so 32-bit overflow of `ac` and `uncalled` is not modelled. Each called 0/0 sample adds 2 to `ac[0]`, so `ac[0]` would overflow after 2^30 non-carriers; `uncalled` would need 2^31 samples.
- Classify.PushSupport: the denominators `rr + rv` and `dr + dv` are unbounded integer sums. The program adds them as `int32_t` (src/svprops.cpp:239-240, 257-258). When both counts are the missing sentinel, that sum overflows, which is undefined behaviour in C++. The model instead keeps the exact sum, -2^32.
- Classify.PushDepthRatio: the denominator `rcl + rcr` is an unbounded integer sum. The program adds it as `int32_t` (src/svprops.cpp:236, 255), where it overflows with the same undefined behaviour. This happens when both flanks are missing or their sum exceeds 2^31 - 1.
- Site.DeriveSize: `svlen` is an unbounded integer; 32-bit wrap-around of END minus the position is not modelled.
- Stale or NULL buffers: the program reuses per-record buffers and dereferences them even when a record lacks the value. The model requires instead (`Vcf.InfoWellFormed`) that an INFO value the row prints is decoded exactly when its key is declared, and that an insertion carries INSLEN.
- Per-sample FORMAT fields are read only when their key is declared. A header that declares RC or DV without RCL/RCR or DR/RV/RR leaves the program reading unset buffers; the model reads the decoded `Sample` fields regardless.
- Multi-allelic calls: the program indexes `ac[]` by allele index and so has defined behaviour only for allele indices -1, 0 and 1. The model requires this (`Vcf.SamplesWellFormed`).
- The order in which `FillHeader` visits `cMap` (ascending name order in `std::map`) does not matter to its result, because every entry lands at its own position. The model visits the map in an arbitrary order.
- Missing.IsMissingFlag: `_missing(bool)` is a single negation that the program never calls. It is modelled by its definition, with no contract of its own.
- Missing.IsMissingFloat: a float's missing test (`bcf_float_is_missing`) compares bit patterns. The model represents the missing float as its own constructor, `Missing.MissingFloat`, so the other NaN patterns and the end-of-vector pattern are not distinguished.
- `bool` values print as 1 or 0 and `string`s as they are. A `char*` SVTYPE is printed as the decoded string.
