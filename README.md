# Paired FASTQ filter: a Dafny model of its filtering engine

The filter reads two FASTQ files, R1 and R2, in lockstep, four lines (one
record) from each at a time. It evaluates a chain of inclusion criteria on
every pair. It writes both records of the pair to the kept outputs (r1o,
r2o), trimmed when a trim length is configured, or both untouched to the
removed outputs (r1f, r2f). A pair can be rejected for three reasons:
- a sequence line too short against the threshold;
- a tile id listed in `--remove_tiles`;
- a read id listed in the `--remove_reads` file.

The run ends at the first empty header. It exits 0 when both files end
together and 1 when one ends first.

The model follows `src/filter.c` module by module:

- `StrTok`: C's `strtok` with one delimiter, on values. It skips leading
  delimiters and takes the next maximal run; empty fields collapse. It
  also gives the reference split into fields. This is the tokeniser used
  by `get_tile_id`, `id_check_read`, `build_remove_tiles` and
  `build_remove_reads`.
- `Fastq`: records as four C strings (`CString`, text without NUL), each
  keeping its `'\n'`. A stream is a sequence of lines, and reading past its
  end yields `""`, as `readln` does at end of file. `Record` is what
  `std_include` writes.
- `Criteria`: `std_check_read`, `tile_check_read` (a loop over the tile
  list) and `id_check_read` as the datatype `Criterion`. It includes the
  strtok loop of `get_tile_id` and the loop in `filter_fastqs` that
  evaluates every criterion without a break.
- `Exclusion`: `build_remove_tiles`, which counts the commas and fills a
  NULL-terminated `array` with strtok. Also the key loop of
  `build_remove_reads`, with the hash table as a `set<string>`.
- `Trim`: `_trim_include` storing `'\n'` and NUL into the sequence and
  quality buffers in place (an `array<char>` each). The buffer size
  `readln` allocates decides when those stores stay in bounds.
- `Setup`: the criteria array `main` assembles, and `build_output_path`.
- `Engine`: `filter_fastqs` as the class `FilterEngine`. Its fields are the
  three global counters and the four output files as sequences of written
  records. Its `Run` method drives the loop and is proved against the
  reference function `FilterFastqs`, which computes the trace of decisions
  from the inputs.

Undefined behaviour in the C code is a value, never a precondition:
- a criterion answers `None` when `strcmp` would get the NULL tile id of a
  header with fewer than five `':'`-tokens, or when the lookup would get a
  NULL read id;
- `TrimRead` answers `None` when the trim stores would land past the
  quality buffer;
- the run then ends with `Undefined` at that record.

Two edge cases of the C code are modelled as written:
- A record cut short by the end of a file is checked and routed with
  empty lines, because `readln` returns `""` at end of file. Only an
  empty header ends the loop.
- A header with fewer than five `':'`-tokens is not rejected:
  `get_tile_id` returns NULL, `strcmp` receives it (src/filter.c:135),
  and the model records `Undefined`.

## Model

| member | source | states |
|---|---|---|
| StrTok.RunLength | src/filter.c:100-108 | the run strtok takes is free of the delimiter, and is ended by one or by the end of the text |
| StrTok.NextToken | src/filter.c:100-108 | one strtok call resumes strictly further on when it returns a token, and has nothing left after NULL |
| StrTok.TokensShape | src/filter.c:100-108 | every token strtok returns is non-empty and holds no delimiter |
| StrTok.StrtokStep | src/filter.c:100-108 | when the remaining text holds the tokens after the first n, the next call returns token n (NULL past the end) and leaves the tokens after n + 1 |
| StrTok.TokensAreNonEmptyFields | src/filter.c:100-108 | strtok's tokens are exactly the non-empty fields of the split, in order: empty fields collapse |
| StrTok.SplitLength | src/filter.c:331-336 | a text has one field more than it has delimiters |
| StrTok.TokenCountBound | src/filter.c:331-348 | strtok returns at most one token more than there are delimiters |
| StrTok.FirstTokenOfField | src/filter.c:156-160 | a text that starts with a non-empty delimiter-free x and then the delimiter gives x as its first token |
| StrTok.FirstTokenOfWhole | src/filter.c:156-160 | a non-empty text without the delimiter is its own first token |
| Fastq.Line | src/filter.c:226-234 | a non-empty line read at position i is the stream's i-th line; past the end the read is empty |
| Fastq.SplitLines | src/filter.c:172-177 | lines written one after another split back at '\n' into their texts |
| Fastq.RecordRoundTrip | src/filter.c:172-177 | the four lines std_include writes for a record split back into exactly those four lines |
| Criteria.GetTileId | src/filter.c:100-108 | the first strtok call and the four more in the loop return the fifth ':'-token, or NULL when there are fewer than five |
| Criteria.TileIdIsFifthNonEmptyField | src/filter.c:100-108 | the tile id is the fifth non-empty ':'-separated field of the header |
| Criteria.LengthCountsNewline | src/filter.c:115-121 | std_check_read is always defined and, since the '\n' is counted, passes iff both reads have at least threshold bases |
| Criteria.TileCheckRead | src/filter.c:124-144 | the walk over the whole NULL-terminated list rejects iff the tile id equals some entry; an empty list accepts; a NULL id against a non-empty list is undefined |
| Criteria.TileCriterion | src/filter.c:124-144 | the tile criterion accepts every pair with no tiles, rejects iff the tile id is listed, and is undefined without a tile id |
| Criteria.Check | src/filter.c:115-169 | each criterion's check function returns that criterion's verdict |
| Criteria.EvaluateChain | src/filter.c:263-272 | the loop over all ncriteria + 1 entries, with no break, keeps the pair iff every criterion accepts, and is undefined iff some criterion is |
| Criteria.ChainOrderIrrelevant | src/filter.c:263-272 | two chains holding the same criteria give the same verdict, whatever the order or repetition |
| Criteria.ChainPermutation | src/filter.c:263-272 | a permuted chain gives the same verdict |
| Criteria.ChainAppend | src/filter.c:263-272 | a pair passes a + b iff it passes a and b, and a + b is undefined iff either part is |
| Criteria.IncludedMeansEveryCriterion | src/filter.c:263-272 | a kept pair is accepted by every criterion of the chain, the length check included |
| Criteria.OneRejectionRemoves | src/filter.c:263-272 | one rejecting criterion anywhere means the pair is not kept |
| Criteria.HeaderKeyWithoutSpace | src/filter.c:156-169 | a header without a space is its own lookup key, '\n' included |
| Criteria.HeaderKeyWithSpace | src/filter.c:156-169 | the header "@id meta" is looked up as "@id" |
| Exclusion.BuildRemoveTiles | src/filter.c:323-350 | the array has ntiles + 1 = commas + 2 cells; it holds the non-empty ','-fields in order and then NULL; it lists exactly those fields, which fit the allocation |
| Exclusion.FillTiles | src/filter.c:339-348 | the strtok loop stores the k-th token in cell k and NULL after the last |
| Exclusion.CountTiles | src/filter.c:331-336 | the comma-counting loop yields one more than the number of commas |
| Exclusion.ListedPrefix | src/filter.c:342-348 | cells holding the tokens in order and then NULL read back, up to the NULL, as exactly the tokens |
| Exclusion.TileListIsNonEmptyFields | src/filter.c:331-348 | the tile list is the non-empty ','-fields of the argument, at most commas + 1 of them |
| Exclusion.FileLength | src/filter.c:366-371 | build_remove_reads reads up to, not past, the first empty line |
| Exclusion.BuildRemoveReads | src/filter.c:366-393 | a key is in the set iff some line before the end of the file yields it |
| Exclusion.ExclusionKeysOfLines | src/filter.c:366-393 | the keys of all lines read form the exclusion set |
| Exclusion.KeysOfLinesStep | src/filter.c:373-391 | reading one more line adds that line's key, if it has one, and nothing else |
| Exclusion.LineKeyShape | src/filter.c:381-385 | every key is "@" followed by a non-empty read id |
| Exclusion.BlankLineHasNoKey | src/filter.c:381 | a blank line adds no key |
| Exclusion.LineKeyOfListedId | src/filter.c:373-385 | the lines "id\n" and "id rest" both add "@id" |
| Trim.StrLen | src/filter.c:181 | strlen is the index of the first NUL |
| Trim.CStrOfBuffer | src/filter.c:54-84 | a buffer holding a line and then a NUL reads back as that line |
| Trim.ReadlnCapacity | src/filter.c:64-81 | the buffer readln returns always holds the line and its NUL, and at least two blocks |
| Trim.CutAtStores | src/filter.c:181-185 | storing '\n' and NUL at offsets n and n + 1 of a buffer turns its string into its first n characters and '\n', and leaves it as it was when it is shorter than n |
| Trim.TrimInPlace | src/filter.c:180-188 | when the sequence line is longer than trimLen + 1, both buffers get the two stores; otherwise neither buffer changes |
| Trim.TrimReadSpec | src/filter.c:180-188 | a sequence line longer than trimLen + 1 becomes trimLen characters and '\n', and so does a quality line of at least trimLen characters; a shorter read is unchanged; header and strand lines never change; undefined iff the quality stores pass its buffer |
| Trim.ShortTrimIsDefined | src/filter.c:64-81 | a trim length below two blocks never stores past a buffer |
| Trim.TrimIdempotent | src/filter.c:180-188 | trimming a trimmed record changes nothing |
| Trim.ToBuffer | src/filter.c:64-81 | a line is handed over in a buffer of readln's size, holding the line and then NUL |
| Trim.IncludeRead | src/filter.c:172-201 | include_func writes the record as std_include does, or trimmed in its own buffers when a trim length is set |
| Setup.ChainShape | src/filter.c:464-465 | for every option list, the empty one included, the chain has ncriteria + 1 entries: the length check first, then one tile or read-id criterion per option, in option order, reading the last tile list and the last key set |
| Setup.LastTileOptionWins | src/filter.c:490-496 | every tile criterion reads the tile list of the last --remove_tiles option |
| Setup.LastReadsOptionWins | src/filter.c:498-504 | every read-id criterion reads the key set of the last --remove_reads option |
| Setup.RepeatedOptionsAddNothing | src/filter.c:464-504 | the assembled chain gives the same verdict as the length check plus at most one tile and one read-id criterion |
| Setup.SpacelessHeaderMissesItsLine | src/filter.c:156-169 | the file line "id\n" adds the key "@id", but the header "@id\n" is looked up with its '\n', so that line does not remove it |
| Setup.OutputPath | src/filter.c:303-320 | defined iff the path is non-empty and no shorter than the extension stripped; the result is the path less that extension, then the new one |
| Setup.OutputPathOfFastq | src/filter.c:303-320 | "base.fastq" becomes "base" and the new extension |
| Setup.OutputPathOfGzip | src/filter.c:303-320 | "base.fastq.gz" becomes "base" and the new extension |
| Setup.OutputPathStrips | src/filter.c:308-314 | a path ending in 'z' loses nine characters, any other six |
| Setup.OutputPathKeepsBase | src/filter.c:314-319 | the derived path starts with the input path less its extension and ends with the new one |
| Engine.DecideSound | src/filter.c:274-287 | a kept pair passed every criterion and its two records went through the include functions; a removed pair failed some criterion and both records are written untouched |
| Engine.DecideKept | src/filter.c:275-280 | a pair every criterion accepts, with both include results defined, is kept with those results |
| Engine.DecideRemoved | src/filter.c:281-286 | a pair some criterion rejects is removed along with its untrimmed records |
| Engine.DecideUndefined | src/filter.c:263-280 | an undefined criterion, or an undefined trim on a kept pair, ends the run undefined |
| Engine.Summary | src/filter.c:274 | the checked counter is the number of routed pairs |
| Engine.SummaryFacts | src/filter.c:274-287 | checked == removed + remaining; r1o and r2o hold as many records as remaining, r1f and r2f as removed; the i-th records of r1o and r2o (of r1f and r2f) are the two outputs of the i-th kept (removed) pair |
| Engine.TraceStep | src/filter.c:262-287 | a pair with both headers that can be routed extends the trace by its decision |
| Engine.TraceEnd | src/filter.c:236-260 | an empty header ends the trace with no further decision: BothEnded when both are empty, OneEnded otherwise |
| Engine.TraceFault | src/filter.c:263-287 | a pair that cannot be routed ends the trace with Fault |
| Engine.TraceDecisions | src/filter.c:225-287 | every pair the trace routes had both headers, and its decision is the one Decide makes for it |
| Engine.TraceStop | src/filter.c:236-260 | the reason the trace stops is read off the first pair after the routed ones |
| Engine.RunEnds | src/filter.c:236-260 | all checked pairs had both headers; the run exits 0 iff both headers after them are empty; it reports a desync at line 4 * checked (exit 1) iff exactly one is; it is undefined only on a routable-looking pair that cannot be routed |
| Engine.DesyncAtShorter | src/filter.c:236-260 | complete inputs of a and b records check min(a, b) pairs and report a desync at line 4 * min(a, b) exactly when a != b |
| Engine.RoutedFromHistory | src/filter.c:274-287 | every record written to a side comes from a pair routed to that side |
| Engine.HistoryIsRouted | src/filter.c:274-287 | every pair routed to a side appears among that side's records |
| Engine.RoutedAt | src/filter.c:263-287 | the j-th checked pair's decision agrees with the chain verdict and the include functions for that pair |
| Engine.KeptRecordsArePairs | src/filter.c:275-280 | r1o and r2o have the same length, and each r1o record sits beside the r2o record of the same accepted pair, both written by the include functions |
| Engine.RemovedRecordsArePairs | src/filter.c:281-286 | r1f and r2f have the same length, and each r1f record sits beside the r2f record of the same rejected pair, both untrimmed |
| Engine.CheckedPairsAreWritten | src/filter.c:274-287 | every checked pair is written whole to one side: trimmed-as-configured to r1o/r2o at the same position if accepted, else untouched to r1f/r2f at the same position |
| Engine.KeptPassLength | src/filter.c:115-121 | every kept pair of a chain holding Length(threshold) has both sequence lines longer than threshold |
| Engine.EndStatus | src/filter.c:236-241 | with an empty header, comparing the first characters says Finished when both are empty and Desync at line 4 * checked otherwise |
| Engine.FilterEngine.constructor | src/filter.c:20 | the counters start at zero and the outputs empty |
| Engine.FilterEngine.RoutePair | src/filter.c:263-287 | reports whether the pair can be routed; if so the pair's decision is appended to the history and counters and outputs follow it; otherwise nothing changes |
| Engine.FilterEngine.Emit | src/filter.c:274-287 | checked goes up with remaining or removed, and both records go to the matching pair of outputs |
| Engine.FilterEngine.Advance | src/filter.c:225-287 | one pass of the loop: stops with the outcome the trace gives on an empty header or an unroutable pair, else routes exactly one pair and moves the trace one pair on |
| Engine.FilterEngine.Run | src/filter.c:204-300 | the loop routes exactly the trace's decisions, returns the outcome that ends the trace, and from fresh counters ends in the state and outcome FilterFastqs gives |

## Left out

- Line transport: `readln` and `readln_unsafe` read through zlib's `gzgets`
  (src/filter.c:46-84). A stream is given as its sequence of lines. Only
  the size of the buffer `readln` returns is modelled, because it bounds
  the trim stores. `--unsafe` mode (a fixed 4096-byte buffer that truncates
  long lines) is not modelled.
- File handling (`gzopen`, `fopen`, `fclose`, `gzclose`, `fputs`): output
  files are sequences of written records. Failure to open a file is not
  modelled.
- Logging and time stamps (`_log`), and the stats file (`output_stats`):
  only console and file output.
- Command-line parsing with `getopt_long` and `atoi`: the configuration is
  given as values. The default threshold of -1 makes `main` exit before
  filtering (src/filter.c:543-545), so the threshold and the trim lengths
  are `nat`. A negative `--threshold` other than -1 is not modelled: it
  would be compared as an unsigned size and reject every pair. A negative
  trim length is not modelled either.
- `--help` and `--version` exit before any filtering.
- The uthash table is a `set<string>`: a duplicate key in the file is
  added twice to the table but is found the same way.
- Memory allocation and freeing: C strings become values, and strtok's
  static state is the remaining text passed along explicitly.
- Counter overflow: `read_pairs_checked` and the other counters are C
  `int`s; the model counts without bound.
- Undefined behaviour is not followed past the record where it happens.
  The model stops with `Undefined` at that record and writes nothing for it.
- `src/filter.h` holds only the version and usage strings.
- Setup.OutputPath: it yields `None` on an empty path or on one shorter
  than the extension, where the C code reads before the string or wraps its
  unsigned length; the model does not say what C would then do.
