# Enhancer classifier preprocessing, modelled in Dafny

This project models the preprocessing core of `src/enhancer_clf.py`, an
enhancer classifier for DNA sequences. It covers:

- **Strands.** The string utilities on DNA strands: `reverse`,
  `cmpl_base_pair` and `neg_strand`.
- **K-mer features.**
  - The k-mer windows of a sequence (`gen_kmers`).
  - The k-mer column index (`make_index_dict_from_list`,
    `get_kmers_index_lookup`).
  - The strand-collapsed count row of one sequence (`get_kmer_counts`).
- **Labels from a FASTA description.** A description is a `|`-separated
  header.
  - The annotation fields (`locfd`).
  - The binary label (`lts`, `lfd`).
  - The tissue label and the brain-region label (`iftl`, `lftd`, `ifbd`,
    `lfbd`). These read each annotation's `[count/total]` group.
- **Test-split buckets.** The positions in the test split of the
  forebrain, hindbrain, limb and other annotations
  (`get_locations_to_y_tIndex`).
- **Motif indicators.** The 0/1 indicator columns for the E-box motif
  `ca[atcg]{2}tg` and the TAAT core `^([atgc])+(taat)([atcg])+$`
  (`get_Ebox_col`, `get_TAAT_core_col`).

Files, one module each:

| File | Module | Contents |
|---|---|---|
| `failures.dfy` | `Failures` | The Python exceptions the code can raise, with `Result` and `Option` |
| `text.dfy` | `Text` | The `str` builtins the code relies on: `in`, `split`, `strip`, and the digits of `int(...)` |
| `strand.dfy` | `Strand` | Complement, reversal (in place, on an array) and the reverse complement |
| `kmers.dfy` | `Kmers` | Windows, the index dictionary, the product of k-mers, and the count row (an imperative loop over an array row, proved against `CountRow`) |
| `labels.dfy` | `Labels` | Description fields, the binary label, annotation parsing, the rank lists and the two multi-class labels |
| `buckets.dfy` | `Buckets` | The loops of `get_locations_to_y_tIndex`, proved against `Hits` and `RestOf` |
| `motifs.dfy` | `Motifs` | The E-box and TAAT-core predicates and their columns |

How Python behaviour is represented:

- **Exceptions** are `Failures.Result` values:
  - `IndexError` is a short `split` result or an example shorter than two characters;
  - `KeyError` is a window missing from the index;
  - `AttributeError` is `.groups()` on a failed `re.match`;
  - `NameError` is the undefined `descriptions`.
- **Loops** are `method`s with invariants. They are:
  - `reverse`'s in-place `list.reverse()`;
  - the window loop of `get_kmer_counts`;
  - the ranks loops of `lftd` and `lfbd`;
  - the two loops of `get_locations_to_y_tIndex`.

  Each is proved equal to a recursive function. The lemmas state the
  function's properties.

## Model

| member | source | states |
|---|---|---|
| Strand.Complement | src/enhancer_clf.py:54-60 | A maps to T, C to G, T to A and G to C. The result is N exactly when the input is not one of the four upper-case bases. |
| Strand.ComplementInvolution | src/enhancer_clf.py:54-60 | On an upper-case base, the complement is a different upper-case base, and complementing twice gives the base back. |
| Strand.ReversedAt | src/enhancer_clf.py:47-51 | Position i of the reversal holds the element i places from the end. |
| Strand.ReverseInPlace | src/enhancer_clf.py:50 | `list.reverse()` leaves the array holding the reversal of its old contents. |
| Strand.Reverse | src/enhancer_clf.py:47-51 | `reverse` returns the reversal of its input. |
| Strand.ComplementAllAt | src/enhancer_clf.py:66 | Mapping `cmpl_base_pair` over a string complements each position. |
| Strand.NegStrandAt | src/enhancer_clf.py:63-66 | `neg_strand` keeps the length. Position i is the complement of the base i places from the end. |
| Strand.NegStrand | src/enhancer_clf.py:63-66 | `neg_strand` is `ComplementAll(Reversed(s))`, complementing the reversed string. Its contract states that the length is kept. The per-position meaning is `Strand.NegStrandAt`. |
| Strand.NegStrandInvolution | src/enhancer_clf.py:63-66 | On upper-case strands, the reverse complement is again upper-case, and applying it twice gives the strand back. |
| Strand.NegStrandWithoutUpperBases | src/enhancer_clf.py:54-66 | A strand with no upper-case base has a reverse complement that is all N. |
| Strand.LowerStrandNeverSelfComplementary | src/enhancer_clf.py:54-66 | A non-empty lower-case strand never equals its own reverse complement. |
| Kmers.GenKmers | src/enhancer_clf.py:69-72 | There are max(0, len - k + 1) windows, and window i is `s[i:i+k]`, of length k. |
| Kmers.IndexDict | src/enhancer_clf.py:279-283 | `make_index_dict_from_list`: the keys are the list's elements. Each key maps to a position holding it, and no later position holds that key, because the last duplicate wins. |
| Kmers.IndexDictOfDistinct | src/enhancer_clf.py:279-283 | On a list without duplicates, each element maps to its own position. |
| Kmers.IndexDictBijection | src/enhancer_clf.py:279-283 | On a list without duplicates, the dictionary has one key per element, hits every position, and is injective. |
| Kmers.ProductMember | src/enhancer_clf.py:289 | A word is in `itertools.product("atcg", repeat=k)` exactly when it is a lower-case strand of length k. |
| Kmers.Product | src/enhancer_clf.py:289 | The product of k positions over "atcg" has 4^k words. `Kmers.ProductMember` and `Kmers.ProductDistinct` state which words they are and that none repeats. |
| Kmers.ProductDistinct | src/enhancer_clf.py:289 | The product yields no word twice. |
| Kmers.ListingLength | src/enhancer_clf.py:290 | `list(set(...))` of a list without duplicates has that list's length. |
| Kmers.KmerIndexLookup | src/enhancer_clf.py:286-290 | For any iteration order of the set, the index is a bijection from the 4^k lower-case k-mers onto the columns 0 .. 4^k - 1. |
| Kmers.KmerCounts | src/enhancer_clf.py:249-276 | `get_kmer_counts` returns `CountRow` of the length-6 windows. |
| Kmers.CountWindows | src/enhancer_clf.py:270-276 | The loop starts from a zero row. Each window that differs from its reverse complement increments its column in place. The result equals `CountRow` of the windows. |
| Kmers.Counted | src/enhancer_clf.py:273 | The skip rule: a window is counted exactly when it differs from its `neg_strand`. It is a definition used by the `CountRow` lemmas and has no contract of its own. |
| Kmers.CountRowOkIff | src/enhancer_clf.py:272-275 | The row is produced exactly when every counted window has a column. |
| Kmers.CountRowFirstMissing | src/enhancer_clf.py:274 | On failure, the error is the KeyError of the first counted window that has no column. |
| Kmers.CountRowEntries | src/enhancer_clf.py:272-275 | Entry j is the number of counted windows whose column is j. |
| Kmers.CountRowTotal | src/enhancer_clf.py:272-275 | The entries sum to the number of windows that differ from their reverse complement. |
| Kmers.CountRowErrPersists | src/enhancer_clf.py:274 | Once a KeyError is raised, later windows do not change the outcome. |
| Kmers.ShortSequenceZeroRow | src/enhancer_clf.py:69-72 | A sequence shorter than k yields the all-zero row of length `len(ref)`. |
| Kmers.AllWindowsCounted | src/enhancer_clf.py:272-275 | When every window is counted and has a column, the row exists and its entries sum to the number of windows. |
| Kmers.LowerSequenceCountRow | src/enhancer_clf.py:249-290 | For a lower-case sequence and the index lookup: the row exists, no KeyError is raised, and the entries sum to the number of windows. Every window is counted, because no lower-case window is self-complementary. |
| Kmers.SumIncrement | src/enhancer_clf.py:275 | Incrementing one entry raises the sum by one. |
| Text.ContainsMeaning | src/enhancer_clf.py:154 | Python's substring test `pat in s` holds exactly when the pattern occurs at some position. |
| Text.Split | src/enhancer_clf.py:80 | `str.split(sep)` yields at least one field. No field contains the separator, and joining the fields gives the string back. |
| Text.SplitJoin | src/enhancer_clf.py:80 | Splitting the join of separator-free fields gives those fields back. |
| Text.Strip | src/enhancer_clf.py:93 | `str.strip()` is a substring of the input with only whitespace around it inside the input. It neither starts nor ends with whitespace. |
| Text.StripUnpadded | src/enhancer_clf.py:93 | A string without leading or trailing whitespace is its own strip. |
| Text.StripIdempotent | src/enhancer_clf.py:153 | Stripping twice is the same as stripping once. |
| Text.DecimalLeadingZero | src/enhancer_clf.py:155-156 | `int(count)` ignores a leading zero. |
| Labels.Locations | src/enhancer_clf.py:75-80 | `locfd` is empty with four fields or fewer. Otherwise the fields are the first four followed by the result, and no annotation contains a bar. |
| Labels.LocationsOfJoin | src/enhancer_clf.py:75-80 | For a header of four bar-free fields followed by annotations, `locfd` returns exactly the annotations. |
| Labels.SignOf | src/enhancer_clf.py:83-85 | `lts` is 1 or -1, and it is 1 exactly for "positive". |
| Labels.BinaryLabel | src/enhancer_clf.py:88-93 | `lfd` raises IndexError exactly when there are fewer than four fields. Otherwise it is ±1, and it is 1 exactly when field 3, stripped, is "positive". |
| Labels.BinaryLabelOfJoin | src/enhancer_clf.py:88-93 | For bar-free fields, `lfd` of their join is the sign of field 3, stripped. |
| Labels.TissueCode | src/enhancer_clf.py:139-144 | `iftl`: brain is 1, limb 2, neural 3, anything else 0. |
| Labels.BrainCode | src/enhancer_clf.py:170-174 | `ifbd`: fore is 1, mid 2, hind 3, anything else 0. |
| Labels.FirstIndex | src/enhancer_clf.py:150 | The first `[` of the line, or the line's length when there is none. |
| Labels.DigitRun | src/enhancer_clf.py:150 | The longest run of digits starting at a position. |
| Labels.AnnotationAtUnique | src/enhancer_clf.py:150 | A match of `([^\[]+)\[(\d+)\/(\d+)\]` has only one possible placement of its `[`, `/` and `]`. |
| Labels.ParseCountMeaning | src/enhancer_clf.py:150-155 | `re.match(regex, line)` succeeds exactly when the line starts with a match of the regex. The captured count is the decimal value of the first digit group. |
| Labels.ParseCount | src/enhancer_clf.py:150-155 | The count group of `re.match(regex, line).groups()`, or None when the match fails. It is a definition; `Labels.ParseCountMeaning` states its meaning. |
| Labels.FieldRanksMeaning | src/enhancer_clf.py:153-162 | One annotation raises AttributeError exactly when it names a keyword but the regex does not match. It adds no entry exactly when it names no keyword. Every entry it adds carries the parsed count, even when one field names several keywords. |
| Labels.KeywordsInMember | src/enhancer_clf.py:154-162 | A keyword is among those an annotation names exactly when it is in the table and its word occurs in the annotation. |
| Labels.FieldRanksEntries | src/enhancer_clf.py:153-162 | With a parsed count c, one annotation adds exactly one `Rank(name, c)` per keyword it contains, in table order, so one annotation can add several entries. When the regex does not match, it adds nothing if it names no keyword, and raises AttributeError otherwise. |
| Labels.RankedEntries | src/enhancer_clf.py:154-162 | The same statement for any outcome of the match. |
| Labels.FieldRanksMember | src/enhancer_clf.py:153-162 | An entry is among one annotation's contributions exactly when the annotation contains a keyword with that label and parses to that count. |
| Labels.RankedMember | src/enhancer_clf.py:154-162 | The same statement for any outcome of the match. |
| Labels.CollectMember | src/enhancer_clf.py:152-162 | An entry is in `ranks` exactly when some annotation's contribution holds it. |
| Labels.RanksOfMember | src/enhancer_clf.py:152-162 | When the loop succeeds, `ranks` holds `Rank(n, c)` exactly when some stripped annotation contains a keyword labelled n and parses to c. |
| Labels.FieldResults | src/enhancer_clf.py:152-153 | Each annotation is stripped before it is looked at. |
| Labels.CollectErr | src/enhancer_clf.py:152-162 | The loop fails exactly when some annotation fails, and the error is the first failing annotation's. |
| Labels.CollectEmpty | src/enhancer_clf.py:152-163 | `ranks` is empty exactly when no annotation adds an entry. |
| Labels.RanksOfErr | src/enhancer_clf.py:152-162 | Building `ranks` fails exactly when some stripped annotation names a keyword but does not parse. The error is the AttributeError of the first such annotation. |
| Labels.RanksOfEmpty | src/enhancer_clf.py:152-163 | `ranks` is empty exactly when no stripped annotation names a keyword. |
| Labels.FirstMaxIndex | src/enhancer_clf.py:166 | `max(ranks, key=count)` picks an entry with the largest count. Every earlier entry has a strictly smaller count. |
| Labels.AnnotationRanks | src/enhancer_clf.py:153-162 | The keyword tests for one annotation, in source order, equal `FieldRanks`. |
| Labels.CollectRanks | src/enhancer_clf.py:152-162 | The loop over the annotation fields, those after the fourth, equals `RanksOf` of the annotation fields. |
| Labels.TissueLabel | src/enhancer_clf.py:147-167 | `lftd` fails exactly when ranking fails, with the same error. With no entry it is 0. Otherwise it is `iftl` of the first entry with the largest count. The result is always in 0..3. |
| Labels.BrainLabel | src/enhancer_clf.py:177-197 | `lfbd` with `description` in place of `descriptions`: the same contract with the keywords midbrain, forebrain and hindbrain and with `ifbd`. |
| Labels.BrainLabelAsWrittenFails | src/enhancer_clf.py:182 | As written, `lfbd` raises NameError even for a description without annotations, where the intended reading finds no ranks and returns 0. |
| Labels.BrainLabelAsWritten | src/enhancer_clf.py:177-197 | `lfbd` as written: the NameError of `descriptions` for every description. It is a definition; `Labels.BrainLabelAsWrittenFails` states the discrepancy. |
| Buckets.Cutoff | src/enhancer_clf.py:107 | `cutoff` is at most n, and it is `8n/10`, rounded down. |
| Buckets.Tail | src/enhancer_clf.py:110 | `locations[cutoff:]` holds the last n - cutoff annotation lists, re-indexed from 0. |
| Buckets.MatchingMember | src/enhancer_clf.py:112-119 | An example's position is appended for a keyword exactly when one of its annotations contains the keyword. |
| Buckets.AddExample | src/enhancer_clf.py:112-123 | The inner loop appends the position once per annotation containing each keyword. It appends the position to 'rest' at most once, and only when some annotation names none of the three regions. |
| Buckets.LocationBuckets | src/enhancer_clf.py:96-125 | The dictionary lists equal `Hits` of the tail for each keyword, and `RestOf` of the tail for 'rest'. |
| Buckets.HitsSorted | src/enhancer_clf.py:109-124 | Each keyword's list holds positions of the test split, in non-decreasing order. |
| Buckets.HitsMember | src/enhancer_clf.py:109-124 | A position is in a keyword's list exactly when one of its annotations contains the keyword. |
| Buckets.RestSorted | src/enhancer_clf.py:120-123 | 'rest' is strictly increasing, so it has no duplicates. |
| Buckets.RestMember | src/enhancer_clf.py:120-123 | A position is in 'rest' exactly when one of its annotations names none of forebrain, hindbrain and limb. |
| Buckets.BucketsProperties | src/enhancer_clf.py:96-125 | Every index lies in [0, n - cutoff). The region lists are sorted, 'rest' has no duplicates, and each list holds exactly the matching positions. |
| Motifs.EboxFrom | src/enhancer_clf.py:313-314 | The scan finds `ca[atcg]{2}tg` at or after a position exactly when it occurs there. |
| Motifs.EboxIndicator | src/enhancer_clf.py:313-314 | The indicator is 0.0 or 1.0, and it is 1.0 exactly when `re.search` finds the E-box. |
| Motifs.HasEbox | src/enhancer_clf.py:313-314 | `re.search("ca[atcg]{2}tg", s)` succeeds exactly when the E-box occurs at some position. |
| Motifs.TaatSplitIff | src/enhancer_clf.py:306 | A string of bases splits as bases+, taat, bases+ exactly when it has length at least 6 and "taat" occurs away from both ends. |
| Motifs.HasTaatCoreMeaning | src/enhancer_clf.py:306-307 | The executable test agrees with the anchored regex, including `$` matching before one trailing newline. |
| Motifs.HasTaatCore | src/enhancer_clf.py:306-307 | The executable TAAT test: the text without one trailing newline is at least six lower-case bases with "taat" strictly inside. It is a definition; `Motifs.HasTaatCoreMeaning` states that it decides the anchored regex. |
| Motifs.TaatIndicatorMeaning | src/enhancer_clf.py:306-307 | The TAAT indicator is 1.0 exactly when `re.match` of the anchored regex succeeds. |
| Motifs.TaatIndicator | src/enhancer_clf.py:307 | The indicator is 0.0 or 1.0. |
| Motifs.EboxColumn | src/enhancer_clf.py:311-315 | One 0.0/1.0 entry per sequence, 1.0 exactly when the E-box occurs in it. |
| Motifs.TaatColumnMeaning | src/enhancer_clf.py:304-308 | One 0.0/1.0 entry per sequence, 1.0 exactly when the TAAT-core regex matches it. |
| Motifs.TaatColumn | src/enhancer_clf.py:304-308 | `get_TAAT_core_col` on the sequences themselves: one entry per sequence, in order, each that sequence's TAAT indicator. |
| Motifs.SecondCharacters | src/enhancer_clf.py:305 | `[x[1] for x in examples]` raises IndexError exactly when some example is shorter than 2. Otherwise it yields each example's second character. |
| Motifs.EboxColumnAsWritten | src/enhancer_clf.py:311-315 | As written, the column fails exactly when taking the second characters fails. |
| Motifs.TaatColumnAsWritten | src/enhancer_clf.py:304-308 | As written, the column fails exactly when taking the second characters fails. |
| Motifs.MotifColumnsAsWrittenAreZero | src/enhancer_clf.py:304-315 | As written, both columns are all 0.0 whenever they exist, because one character holds neither motif. |
| Motifs.EboxColumnDiscrepancy | src/enhancer_clf.py:312 | On ["cacgtg"], the column as written is [0.0], while the intended column is [1.0]. |
| Motifs.TaatColumnDiscrepancy | src/enhancer_clf.py:305 | On ["ataatc"], the column as written is [0.0], while the intended column is [1.0]. |

## Left out

- Reading FASTA files (`parse_fa`, `parse_fa_tissue`, `parse_fa_fine_grain`) is I/O through Biopython and is not modelled. Those readers pass a record rather than its description to `lftd`/`lfbd`, and lower-case every sequence. The model takes description strings and any sequence.
- `get_XY` is left out as numpy stacking and printing. So are `gen_neg_seqs` (randomness), the scikit-learn training and evaluation, plotting and the command line.
- Kmers.KmerIndexLookup: the iteration order of `set(all_kmers)` is not determined by the program. It is a parameter `order`, required only to list every product word once. Only order-independent facts are proved.
- Kmers.KmerCounts: the row is a numpy float array in the source and a row of `nat` counts here. The counts are whole numbers either way.
- Kmers.KmerCounts: requires `ValidRef`, that every column of `ref` lies inside a row of `len(ref)` entries. `KmerIndexLookup` yields such a table. An out-of-range column, an IndexError of numpy, is not modelled.
- Kmers.GenKmers: the parameter `k` is a natural number. A negative `k` is not modelled.
- Strand.Complement: complements only upper-case bases, as written. Every sequence and k-mer in the pipeline is lower-case, so every window counts as not self-complementary (`Kmers.LowerSequenceCountRow`). The paper's strand collapse therefore never takes effect. This is kept as the program's behaviour rather than corrected.
- Buckets.LocationBuckets: the first component `x` of each pair is never read and is a type parameter. The `dict` is a four-field datatype.

## Findings

| source | as written | input that shows it | evidently intended | confidence | as-written member | corrected member |
|---|---|---|---|---|---|---|
| src/enhancer_clf.py:182 | `lfbd` splits `descriptions`, a name defined nowhere, so every call raises NameError | any description, e.g. the empty string | loop over the parameter `description`, as `lftd` does at line 152 | high (not executed) | Labels.BrainLabelAsWrittenFails | Labels.BrainLabel |
| src/enhancer_clf.py:304-315 | `get_TAAT_core_col` and `get_Ebox_col` take `x[1]` of each example, which is the example's second character | examples `["cacgtg"]` (E-box) and `["ataatc"]` (TAAT core): as written each column is [0.0], and any example shorter than 2 raises IndexError | test each whole sequence | medium (not executed) | Motifs.EboxColumnDiscrepancy, Motifs.TaatColumnDiscrepancy | Motifs.EboxColumn, Motifs.TaatColumn |
