# comptools in Dafny

A verified model of the deterministic core of *comptools*, a Python toolkit
for composers. The model covers:

- **The integer-sieve engine** (`build/lib/comptools/sievetools.py`):
  - periodic 0/1 vectors combined by union, intersection and exclusive or;
  - residue classes `m@s`;
  - the greedy compressor that covers a finite set of integers with residue
    classes;
  - the `Sieve` façade, built from a bit vector, an integer list or a
    formula such as `5@4|6@1|(3@2&13@7)`.
- **Pitch-class arithmetic.** The three copies of `basic_tools` that differ
  from each other are three modules (`BasicToolsBuild`, `BasicToolsPkg`,
  `BasicToolsRoot`). The code the three copies share is module `PitchCore`.
- **Integer partitions** from `parsepy`: the `accel_asc` generator,
  resizing, revariance and transference, the agglomeration and dispersion
  indices, linear partitions, and the graph and breadth-first-search helpers.
- **Twelve-tone rows** in order-number form (`comptools/twelve_tone.py`).
- **Hindemith's interval roots and chord classification** (`hindemith.py`).
- **The Lisp tokenizer and recursive parser** (`comptools/lisparser.py`).
- **Similarity relations** over interval vectors: Forte, Morris, Rahn and
  the text of a set class.
- **Small loop helpers:**
  - beat and bar cycles (`kozu.py`);
  - the directed adjacency builder (`graphs.py`);
  - scale generation up to a bound (`parsemaker.py`);
  - first-fit counterpoint (`scampshorts.py`);
  - rhythm-tree substitution (`abjadtools.py`).

## How Python is modelled

- **Lists, dicts and strings.** Lists are `seq<int>`, dictionaries of lists
  are `map<K, seq<V>>`, and strings are `seq<char>`.
- **Exceptions.** A Python exception is the `Err` case of `PyBase.Result`:
  `ValueError`, `IndexError`, `ZeroDivisionError`, `StopIteration`,
  `KeyError`, and `UnboundLocalError` for a variable read before it is
  assigned.
- **Code that changes state.** Each loop is a Dafny `method` with loop
  invariants. Its postcondition ties the result to a recursive
  specification function, and the properties the code promises are lemmas
  about that function.
- **Objects updated in place** are classes:
  - `LisParser`, whose token stack `recursive_unpack` consumes;
  - `NoteList`, the caller's counterpoint list that `make_counterpoint`
    extends.
- **Objects that never change** after their constructor (`Residual`,
  `Compress`, `Sieve`) are datatypes built by a constructor method.
- **Integers** are unbounded, like Python's. `%` on negative operands is
  Python's floor modulo, which equals Dafny's Euclidean `%` for the positive
  moduli used here.

Some source files appear twice in the repository with the same code. Each
is modelled once:

- `parsepy.py` repeats the partition, linear-partition and graph functions
  of `build/lib/comptools/parsepy.py`.
- `similarity.py` repeats `forte`, `morris` and `rahn` of
  `comptools/similarity.py`.
- `parsemaker.py` repeats `make_full_scale` of `comptools/parsemaker.py`.
- `interval_class`, `interval_vector`, `rotate_sequence`, `all_rotations`,
  `most_compact` and `normal_form` are the same in all three `basic_tools`
  copies.

The table below cites one copy; the same member models the repeated code
in the other.

## Model

| member | source | states |
|---|---|---|
| PitchCore.IntervalClass | build/lib/comptools/basic_tools.py:14-25 | the interval class lies in 0..6 and is the smaller of the two directed distances modulo 12 |
| PitchCore.IntervalClassSymmetric | build/lib/comptools/basic_tools.py:21-25 | the interval class does not depend on the order of the two pitches |
| PitchCore.IntervalClassOctave | build/lib/comptools/basic_tools.py:21-25 | nor on the octave of either pitch |
| PitchCore.IntervalVector | build/lib/comptools/basic_tools.py:28-39 | the nested loops produce the six-slot vector that counts every pair i < k in the slot of its interval class |
| PitchCore.IntervalVectorTotal | build/lib/comptools/basic_tools.py:34-39 | the six slots are non-negative and hold n(n-1)/2 pairs in total |
| PitchCore.UnisonInLastSlot | build/lib/comptools/basic_tools.py:37 | a unison or octave pair lands in slot 5 through Python's index -1 |
| PitchCore.CountRow | build/lib/comptools/basic_tools.py:35-37 | the inner loop adds row i's pairs (i, k), k > i, to the counter |
| PitchCore.SliceIndex | build/lib/comptools/basic_tools.py:154 | a slice bound is clamped to 0..n, negative indices counting from the end |
| PitchCore.RotateSequence | build/lib/comptools/basic_tools.py:145-154 | rotate_sequence keeps the length and the multiset of the list |
| PitchCore.RotateIndex | build/lib/comptools/basic_tools.py:154 | element i of the rotation by k is element (i + k) mod n |
| PitchCore.RotateRotate | build/lib/comptools/basic_tools.py:154 | a rotation by a followed by one by b is the rotation by a + b |
| PitchCore.RotateFull | build/lib/comptools/basic_tools.py:154 | a rotation by the list's own length gives the list back |
| PitchCore.AllRotations | build/lib/comptools/basic_tools.py:157-171 | all_rotations returns len(s) lists, entry k the rotation by k, the first being s |
| PitchCore.MostCompactOf | build/lib/comptools/basic_tools.py:174-193 | most_compact returns one of its two arguments or raises IndexError |
| PitchCore.CompactFromLex | build/lib/comptools/basic_tools.py:183-193 | the list picked has the lexicographically smaller spans from its first element, or the smaller first element on equal spans |
| PitchCore.MostCompactLex | build/lib/comptools/basic_tools.py:174-193 | the same for the whole comparison |
| PitchCore.MostCompact | build/lib/comptools/basic_tools.py:183-193 | the loop with early returns computes MostCompactOf |
| PitchCore.MostCompactOk | build/lib/comptools/basic_tools.py:174-193 | two lists of the same non-zero length never make most_compact raise |
| PitchCore.NormalFormOf | build/lib/comptools/basic_tools.py:196-209 | normal_form is a rotation of the sorted distinct pitch classes |
| PitchCore.NormalFormIsRotation | build/lib/comptools/basic_tools.py:196-209 | normal_form returns one of the rotations of sorted(set(pcset)) |
| PitchCore.NormalForm | build/lib/comptools/basic_tools.py:200-209 | the `best` loop computes NormalFormOf |
| PitchCore.StartSequenceOf | build/lib/comptools/basic_tools.py:103-116 | start_sequence_pitches has one more entry than the intervals and starts at the given pitch |
| PitchCore.StartSequence | build/lib/comptools/basic_tools.py:111-116 | the append loop computes the running sums |
| PitchCore.IntervalSequence | comptools/basic_tools.py:102-109 | interval_sequence_pitches has one difference per neighbouring pair |
| PitchCore.StartOfIntervals | comptools/basic_tools.py:109-125 | start_sequence_pitches(p[0], interval_sequence_pitches(p)) == p for non-empty p |
| PitchCore.IntervalsOfStart | comptools/basic_tools.py:109-125 | the differences of the running sums are the intervals again |
| PitchCore.PitchesToPitchClasses | comptools/basic_tools.py:15-22 | the length is kept and every class lies in 0..11 and is its pitch mod 12 |
| PitchCore.TranspositionPitchClasses | comptools/basic_tools.py:91-99 | the length is kept and every result lies in 0..11 |
| PitchCore.TranspositionPitches | comptools/basic_tools.py:81-88 | every pitch is moved by t |
| PitchCore.TranspositionReduces | comptools/basic_tools.py:81-99 | transposing classes is transposing the pitches and reducing them |
| PitchCore.TranspositionCompose | comptools/basic_tools.py:99 | T_b after T_a is T_(a + b) on pitch classes |
| PitchCore.InvertedClasses | comptools/basic_tools.py:149-152 | (12 - pc) mod 12 for every class, each in 0..11 |
| PitchCore.InvertedClassesInvolution | comptools/basic_tools.py:149-152 | on pitch classes that inversion is an involution |
| PitchCore.RetrogradeLast | comptools/basic_tools.py:70-78 | retrograde as written returns the one-element list of the last element |
| PitchCore.RetrogradeLastIsNotReverse | comptools/basic_tools.py:77-78 | on [0, 1] it differs from the reversal its docstring promises |
| PitchCore.Reverse | build/lib/comptools/basic_tools.py:60-67 | list(reversed(s)): same length, element i is element n-1-i |
| PitchCore.ReverseInvolution | build/lib/comptools/basic_tools.py:67 | reversing twice gives the list back |
| PitchCore.Negated | comptools/basic_tools.py:135-139 | every element negated |
| PitchCore.NegatedTwice | comptools/basic_tools.py:135-139 | negating twice gives the list back |
| PitchCore.InversionPitches | comptools/basic_tools.py:128-139 | IndexError on the empty list; otherwise the same length, starting with the same pitch |
| PitchCore.InversionNegatesIntervals | comptools/basic_tools.py:135-139 | the inversion negates every interval of the line |
| PitchCore.InversionInvolution | comptools/basic_tools.py:128-139 | inverting twice gives the line back |
| PitchCore.Collapse | comptools/basic_tools.py:379-391 | the result has no two equal neighbours and keeps the first element |
| PitchCore.RemoveRepsOf | comptools/basic_tools.py:379-391 | remove_reps raises IndexError exactly on the empty list |
| PitchCore.CollapseKeeps | comptools/basic_tools.py:385-391 | a list without equal neighbours is left as it is |
| PitchCore.RemoveRepsIdempotent | comptools/basic_tools.py:379-391 | remove_reps applied twice is remove_reps applied once |
| PitchCore.RemoveReps | build/lib/comptools/basic_tools.py:375-381 | the loop computes RemoveRepsOf |
| PitchCore.MarkovSuccessors | build/lib/comptools/basic_tools.py:384-397 | the keys are the elements with a successor, each mapped to the successors of its occurrences, in order |
| PitchCore.Markov | build/lib/comptools/basic_tools.py:393-397 | the zip loop builds the map MarkovOf describes |
| PitchCore.MarkovNoRepsOf | build/lib/comptools/basic_tools.py:391-397 | the no_reps map raises IndexError exactly on the empty list |
| PitchCore.MarkovNoSelfLoops | comptools/basic_tools.py:401-407 | with no_reps no element lists itself as a successor |
| BasicToolsBuild.LooksLikePitchClasses | build/lib/comptools/basic_tools.py:77 | max() of an empty list raises ValueError; otherwise whether max(pitches) <= 11 |
| BasicToolsBuild.TranspositionOf | build/lib/comptools/basic_tools.py:70-82 | every element moved by the factor, and reduced mod 12 exactly when the input looked like pitch classes |
| BasicToolsBuild.Transposition | build/lib/comptools/basic_tools.py:76-82 | the loop and the reduction compute TranspositionOf |
| BasicToolsBuild.TranspositionOfClasses | build/lib/comptools/basic_tools.py:77-82 | on pitch classes transposition is transposition_pitch_classes |
| BasicToolsBuild.TranspositionComposes | build/lib/comptools/basic_tools.py:77-82 | on pitch classes T_b after T_a is T_(a + b) |
| BasicToolsBuild.TranspositionOfPitches | build/lib/comptools/basic_tools.py:77-82 | pitches above 11 are moved and never reduced |
| BasicToolsBuild.IntervalsOf | build/lib/comptools/basic_tools.py:86-100 | one interval per neighbouring pair, or ValueError on the empty list |
| BasicToolsBuild.IntervalsOfClassesAre | build/lib/comptools/basic_tools.py:94-98 | on pitch classes the intervals are the differences mod 12, or their interval classes with icclass |
| BasicToolsBuild.StartOfIntervalsOf | build/lib/comptools/basic_tools.py:99-116 | for pitches above 11, start_sequence_pitches(p[0], intervals(p)) == p |
| BasicToolsBuild.IntervalsOfClasses | build/lib/comptools/basic_tools.py:94-116 | on pitch classes without icclass, adding interval i to class i gives class i + 1 mod 12 |
| BasicToolsBuild.InversionOf | build/lib/comptools/basic_tools.py:119-131 | ValueError on the empty list; otherwise the same length |
| BasicToolsBuild.InversionOfPitches | build/lib/comptools/basic_tools.py:129-131 | for pitches above 11 the first pitch is kept and every interval negated |
| BasicToolsBuild.InversionOfClasses | build/lib/comptools/basic_tools.py:127-128 | on pitch classes, (12 - pc) mod 12 transposed by the factor; with factor 0 an involution |
| BasicToolsBuild.PrimeFormOf | build/lib/comptools/basic_tools.py:212-226 | prime_form fails exactly on the empty list |
| BasicToolsBuild.PrimeFormStartsAtZero | build/lib/comptools/basic_tools.py:212-226 | the prime form of a non-empty set of pitch classes starts at 0 |
| BasicToolsBuild.ContourMatrixOf | build/lib/comptools/basic_tools.py:239-254 | an n by n matrix |
| BasicToolsBuild.ContourMatrixShape | build/lib/comptools/basic_tools.py:245-254 | entries in {-1, 0, 1}, zero diagonal, antisymmetric, entry (i, j) is 1 exactly when element j is above element i |
| BasicToolsBuild.ContourMatrix | build/lib/comptools/basic_tools.py:245-254 | the nested loops compute ContourMatrixOf |
| BasicToolsPkg.InversionPitchClasses | comptools/basic_tools.py:142-152 | the length is kept and every class lies in 0..11 |
| BasicToolsPkg.InversionPitchClassesInvolution | comptools/basic_tools.py:149-150 | with t_factor 1 each class is reflected around 0, and reflecting twice gives the classes back |
| BasicToolsPkg.InversionPitchClassesTransposes | comptools/basic_tools.py:151-152 | any other t_factor transposes the reflected classes by t_factor |
| BasicToolsPkg.InversionFactorsZeroAndOneAgree | comptools/basic_tools.py:149-152 | factors 0 and 1 give the same result |
| BasicToolsPkg.FirstOccurrences | comptools/basic_tools.py:258-263 | the list has no repeats and holds exactly the elements of its input |
| BasicToolsPkg.TranspositionForms | comptools/basic_tools.py:255-263 | twelve forms, one per transposition factor |
| BasicToolsPkg.InversionForms | comptools/basic_tools.py:255-263 | twelve forms, one per transposition factor of the inversion |
| BasicToolsPkg.SetClassOf | comptools/basic_tools.py:249-264 | "T" and "I" each hold at most twelve distinct normal forms, every "T" form with the classes of some transposition |
| BasicToolsPkg.SetClassHoldsItself | comptools/basic_tools.py:249-264 | a set's own normal form is in "T" and the normal form of its inversion in "I" |
| BasicToolsPkg.SetClass | comptools/basic_tools.py:255-264 | the twelve rounds compute SetClassOf |
| BasicToolsRoot.InversionPitchClasses | basic_tools.py:141-148 | 12 - pc for every class, with no reduction |
| BasicToolsRoot.InversionOfZeroLeavesRange | basic_tools.py:148 | class 0 is sent to 12, which is not a pitch class |
| BasicToolsRoot.InversionPitchClassesAgree | basic_tools.py:148 | it agrees with the reduced inversion everywhere except at class 0 |
| BasicToolsRoot.MovedToZero | basic_tools.py:236 | the set moved so that its first element is 0, every entry in 0..11 |
| BasicToolsRoot.PrimeFormOf | basic_tools.py:229-242 | the lexicographically smaller of the normal forms of the moved set and of its inversion |
| BasicToolsRoot.PrimeFormCandidates | basic_tools.py:236-242 | for a non-empty set one candidate holds class 0 and the other holds 12 |
| BasicToolsRoot.PrimeFormOfEmpty | basic_tools.py:229-242 | the empty set has the empty prime form |
| SievePatterns.Combined | build/lib/comptools/sievetools.py:6-25 | the combined vector has length lcm(p, q) |
| SievePatterns.Repeat | build/lib/comptools/sievetools.py:9-10 | `list * n` has n times the length |
| SievePatterns.OnesOf | build/lib/comptools/sievetools.py:11-12 | the positions holding 1, strictly increasing |
| SievePatterns.TiledOnes | build/lib/comptools/sievetools.py:9-12 | a position of a tiled vector holds 1 exactly when its residue does in the original |
| SievePatterns.MarkOnes | build/lib/comptools/sievetools.py:20-23 | the loop writes 1 exactly at the listed positions of a zeroed list |
| SievePatterns.OperationsSieves | build/lib/comptools/sievetools.py:6-25 | _operationsSieves returns Combined |
| SievePatterns.OnesForCombined | build/lib/comptools/sievetools.py:13-19 | a position is selected exactly when the combined vector has a 1 there |
| SievePatterns.MarkedIsCombined | build/lib/comptools/sievetools.py:13-23 | the marked vector is the combined vector |
| SievePatterns.CombinedCommutative | build/lib/comptools/sievetools.py:6-22 | OR, AND and XOR combinations are commutative |
| SievePatterns.CombinedHits | build/lib/comptools/sievetools.py:6-22 | the combined vector describes the pointwise combination of the two periodic sets at every integer |
| SievePatterns.CombinedRespectsHits | build/lib/comptools/sievetools.py:6-22 | vectors describing the same sets combine alike |
| SieveResidual.BinaryRepr | build/lib/comptools/sievetools.py:41-44 | length m, exactly one 1, at shift mod m |
| SieveResidual.BinaryReprChecked | build/lib/comptools/sievetools.py:41-44 | ZeroDivisionError for m == 0, IndexError for m < 0, BinaryRepr otherwise |
| SieveResidual.FromInts | build/lib/comptools/sievetools.py:28-38 | a residual built from integers has period m, its one-hot vector and text "m@s" |
| SieveResidual.FromText | build/lib/comptools/sievetools.py:30-36 | a successful read is a valid class whose text is the input with "@0" appended |
| SieveResidual.FromTextOfRepr | build/lib/comptools/sievetools.py:30-37 | the text a residual prints reads back as the same class |
| SieveResidual.HitsResidual | build/lib/comptools/sievetools.py:41-51 | x is in Residual(m, s) exactly when x and s agree mod m |
| SieveResidual.SegmentOf | build/lib/comptools/sievetools.py:46-51 | the hits in [lo, hi], strictly increasing, all inside the window |
| SieveResidual.Segment | build/lib/comptools/sievetools.py:46-51 | the loop computes SegmentOf, each entry moved by shift |
| SieveResidual.Intersection | build/lib/comptools/sievetools.py:57-58 | the AND combination of both vectors |
| SieveResidual.Union | build/lib/comptools/sievetools.py:61-64 | the OR combination of both vectors |
| SieveResidual.ResidualSegment | build/lib/comptools/sievetools.py:46-51 | a residual's segment holds exactly the class members in the window |
| SieveResidual.ResidualSegmentIs | build/lib/comptools/sievetools.py:46-51 | it is the one increasing list of those members |
| SieveResidual.SegmentExample | build/lib/comptools/sievetools.py:46-51 | 5@4 over [0, 20] is [4, 9, 14, 19] |
| SieveCompress.Subset | build/lib/comptools/sievetools.py:82-89 | _subset answers 1 exactly when every element of sub is in the other list, else 0 |
| SieveCompress.ClassSegmentMembers | build/lib/comptools/sievetools.py:93-97 | the tested segment holds the class members in the window |
| SieveCompress.FitsAtMaxMod | build/lib/comptools/sievetools.py:99-103 | modulus MAXMOD always fits, so the assert never fires |
| SieveCompress.LeastFit | build/lib/comptools/sievetools.py:91-103 | the modulus found lies in 1..MAXMOD and fits |
| SieveCompress.LeastFitLeast | build/lib/comptools/sievetools.py:91-103 | no smaller modulus fits |
| SieveCompress.Find | build/lib/comptools/sievetools.py:91-103 | _find returns Residual(LeastFit, n) |
| SieveCompress.RestMembers | build/lib/comptools/sievetools.py:113-116 | the pending points left are those outside the class just found |
| SieveCompress.GreedyCoverExact | build/lib/comptools/sievetools.py:105-118 | over the window the recorded classes hit every pending point and nothing outside the input |
| SieveCompress.GreedyCoverTerms | build/lib/comptools/sievetools.py:105-118 | each term's shift is an input point and its modulus the least that fits that shift |
| SieveCompress.GreedyCoverShiftsIncrease | build/lib/comptools/sievetools.py:105-118 | the shifts increase strictly, so no class is recorded twice |
| SieveCompress.RemoveSegment | build/lib/comptools/sievetools.py:115-116 | the removal loop leaves the points the segment does not contain, in order |
| SieveCompress.Process | build/lib/comptools/sievetools.py:105-118 | the while loop records GreedyCover |
| SieveCompress.CompressedRepr | build/lib/comptools/sievetools.py:120-126 | the representations joined with "\|" |
| SieveCompress.DedupLoop | build/lib/comptools/sievetools.py:71-74 | the loop keeps the first occurrence of every number, in order |
| SieveCompress.Compress | build/lib/comptools/sievetools.py:68-80 | the constructor computes CompressOf |
| SieveCompress.CompressFails | build/lib/comptools/sievetools.py:75-76 | ValueError exactly for fewer than two distinct values |
| SieveCompress.CompressShape | build/lib/comptools/sievetools.py:69-78 | match is the sorted distinct input, z = [min..max], MAXMOD = \|z\| |
| SieveCompress.CompressParts | build/lib/comptools/sievetools.py:79-80 | the residuals are the greedy cover and the string joins their texts with "\|" |
| SieveCompress.CompressNonEmpty | build/lib/comptools/sievetools.py:105-118 | at least one class is recorded |
| SieveCompress.CompressExact | build/lib/comptools/sievetools.py:68-118 | over [min, max] the union of the classes is the input set |
| SieveFacade.FoldBins | build/lib/comptools/sievetools.py:141-147 | the fold of a non-empty list of non-empty vectors is non-empty |
| SieveFacade.FoldOrHits | build/lib/comptools/sievetools.py:141-147 | a union fold hits x exactly when one vector does |
| SieveFacade.FoldAndHits | build/lib/comptools/sievetools.py:165-168 | an intersection fold hits x exactly when every vector does |
| SieveFacade.FoldLoop | build/lib/comptools/sievetools.py:145-147 | the fold loop computes FoldBins |
| SieveFacade.UnionBinHits | build/lib/comptools/sievetools.py:141-147 | the union vector hits exactly the points of the recorded classes |
| SieveFacade.ListRoundTrip | build/lib/comptools/sievetools.py:141-150 | for a compressed list, the segment of the union over [min, max] is the sorted distinct input |
| SieveFacade.CoverSegment | build/lib/comptools/sievetools.py:141-150 | the union of a greedy cover hits exactly the list over its window |
| SieveFacade.LiteralBin | build/lib/comptools/sievetools.py:165-166 | a literal read successfully gives a non-empty vector |
| SieveFacade.TraverseFirstError | build/lib/comptools/sievetools.py:158-172 | evaluation fails exactly when some element fails, with the first failure's error |
| SieveFacade.Literals | build/lib/comptools/sievetools.py:164 | a group has at least one literal |
| SieveFacade.ParsedBin | build/lib/comptools/sievetools.py:158-172 | a string parsed successfully gives a non-empty vector |
| SieveFacade.ParseGroup | build/lib/comptools/sievetools.py:164-168 | the group loop computes GroupBin |
| SieveFacade.ParseString | build/lib/comptools/sievetools.py:158-172 | the parsing loops compute ParsedBin |
| SieveFacade.GroupOfRepr | build/lib/comptools/sievetools.py:164-166 | the text of a class, read as a group, is that class's vector |
| SieveFacade.TextRoundTrip | build/lib/comptools/sievetools.py:120-172 | the string the compressor prints parses back to the union of its classes |
| SieveFacade.ParsedGroups | build/lib/comptools/sievetools.py:158-172 | groups joined by "\|" parse to the union of their vectors |
| SieveFacade.CompressTextRoundTrip | build/lib/comptools/sievetools.py:214-216 | Sieve(Compress(xs).stringrepr) has the vector Sieve(xs) has |
| SieveFacade.CoverRoundTrip | build/lib/comptools/sievetools.py:120-126 | the printed greedy cover parses back to the union of its classes |
| SieveFacade.Intervals | build/lib/comptools/sievetools.py:174-179 | for two or more points one difference per neighbouring pair |
| SieveFacade.IntervalsRebuild | build/lib/comptools/sievetools.py:174-179 | the differences rebuild the segment from its first point |
| SieveFacade.IntervalsSpan | build/lib/comptools/sievetools.py:174-179 | the differences add up to the span |
| SieveFacade.IntervalsPositive | build/lib/comptools/sievetools.py:174-179 | the differences of an increasing segment are positive |
| SieveFacade.IsBitVectorIff | build/lib/comptools/sievetools.py:134-136 | a list is taken for a bit vector exactly when its distinct values are 0 and 1 |
| SieveFacade.FinishSieve | build/lib/comptools/sievetools.py:150-155 | the closing lines compute Finish |
| SieveFacade.NewSieve | build/lib/comptools/sievetools.py:130-155 | the constructor computes SieveOf |
| SieveFacade.SieveOfList | build/lib/comptools/sievetools.py:137-147 | a sieve from a list has the union vector of its compression, whose segment over [min, max] is the sorted distinct input |
| SieveFacade.SieveOfBits | build/lib/comptools/sievetools.py:134-136 | index len is in the initial segment exactly when index 0 holds 1 |
| SieveFacade.FinishCompressed | build/lib/comptools/sievetools.py:150-216 | period = length of the vector, canonic segment = its hits over [0, period], and the compressed string parses back to a vector agreeing over that span |
| SieveFacade.SieveCompressed | build/lib/comptools/sievetools.py:130-155 | every constructed sieve satisfies FinishCompressed's promise |
| SieveExamples.Formula3At2Or5At3 | build/lib/comptools/sievetools.py:224-226 | "3@2\|5@3" is the 15-bit vector binary_A |
| SieveExamples.Formula390 | build/lib/comptools/sievetools.py:222-223 | "5@4\|6@1\|(3@2&13@7)" has period 390 |
| SieveExamples.EmptyListFails | build/lib/comptools/sievetools.py:75-76 | the empty list raises ValueError |
| SieveExamples.RepeatedValueFails | build/lib/comptools/sievetools.py:75-76 | a list repeating one value, 0 and 1 included, raises ValueError |
| Arith.Lcm | build/lib/comptools/sievetools.py:7 | math.lcm: the least positive common multiple, at most p * q |
| Arith.LcmDivides | build/lib/comptools/sievetools.py:7 | lcm(p, q) divides every common multiple |
| ParsepyIndices.BinaryRelations | build/lib/comptools/parsepy.py:106-113 | n(n-1)/2, exact |
| ParsepyIndices.BinaryRelationsAdd | build/lib/comptools/parsepy.py:106-113 | the pairs of a + b parts are those of a, of b and the a*b across |
| ParsepyIndices.AgglomerationIndex | build/lib/comptools/parsepy.py:116-127 | the loop sums the pairs inside each part |
| ParsepyIndices.IndicesSplitRelations | build/lib/comptools/parsepy.py:113-137 | agglomeration + dispersion = binary_relations(sum of parts) |
| ParsepyIndices.DispersionIsCrossPairs | build/lib/comptools/parsepy.py:130-137 | dispersion counts exactly the pairs in different parts |
| ParsepyIndices.DispersionNonNegative | build/lib/comptools/parsepy.py:130-137 | it is never negative for non-negative parts |
| ParsepyIndices.OnesAgglomeration | build/lib/comptools/parsepy.py:116-137 | a partition of n into ones has agglomeration 0 and sum n |
| ParsepyPartitions.Descend | build/lib/comptools/parsepy.py:166-170 | the first inner loop keeps the partial-partition state |
| ParsepyPartitions.Pairs | build/lib/comptools/parsepy.py:172-178 | the second inner loop extends the lexicographic chain of partitions |
| ParsepyPartitions.Yields | build/lib/comptools/parsepy.py:172-183 | the lists it yields continue the chain |
| ParsepyPartitions.Round | build/lib/comptools/parsepy.py:168-183 | one pass of the outer loop: the lists it yields extend the chain of partitions of n in strictly increasing lexicographic order, the last being the current list a[:k+1] |
| ParsepyPartitions.AccelAsc | build/lib/comptools/parsepy.py:157-183 | IndexError exactly for n < 0, [[0]] for 0, otherwise partitions of n in strictly increasing lexicographic order |
| ParsepyPartitions.AllPartitions | build/lib/comptools/parsepy.py:186-193 | fails exactly for n < 0, [[0]] for 0, otherwise distinct partitions of n |
| ParsepyPartitions.YoungRet | build/lib/comptools/parsepy.py:196-207 | partitions of sums 1..n, sums non-decreasing, no repeats, at least n of them |
| ParsepyPartitions.LexChainNoDuplicates | build/lib/comptools/parsepy.py:157-183 | a lexicographic chain repeats no list |
| ParsepyOps.BumpedIsResized | build/lib/comptools/parsepy.py:221-222 | a bumped list keeps the length, is sorted and has sum one larger |
| ParsepyOps.Resizing | build/lib/comptools/parsepy.py:210-225 | the result is the set of lists obtained by adding 1 to one part and sorting, without repeats |
| ParsepyOps.ResizingResults | build/lib/comptools/parsepy.py:217-225 | every result has the length of part, is sorted, has sum + 1, and is a partition of n + 1 for a partition of n |
| ParsepyOps.Revariance | build/lib/comptools/parsepy.py:228-238 | 1 in front: length and sum each one larger |
| ParsepyOps.RevarianceOfPartition | build/lib/comptools/parsepy.py:235-238 | a partition of n becomes a partition of n + 1 |
| ParsepyOps.Transference | build/lib/comptools/parsepy.py:241-274 | the two loops compute TransferenceOf; None for (1,) |
| ParsepyOps.AddMoves | build/lib/comptools/parsepy.py:266-272 | the inner loop adds exactly the moves from part i to another part that change the list |
| ParsepyOps.MovesKeep | build/lib/comptools/parsepy.py:267-272 | every list the inner loop adds keeps the sum, differs from part, and is a partition when part is |
| ParsepyOps.SingleTransferred | build/lib/comptools/parsepy.py:249-256 | a single part p != 1 gives [1, p - 1] |
| ParsepyOps.TransferenceKeepsSum | build/lib/comptools/parsepy.py:249-274 | every result has the sum of part and differs from it, and is a partition when part is |
| ParsepyOps.TrimmedIsPartition | build/lib/comptools/parsepy.py:262-270 | zeros removed and sorted gives a partition of the sum |
| ParsepyOps.PartRep | build/lib/comptools/parsepy.py:381-391 | the parts written with "." between them |
| ParsepyOps.PartRepRoundTrip | build/lib/comptools/parsepy.py:381-391 | a node name splits at its dots back into the parts |
| ParsepyOps.PartRepInjective | build/lib/comptools/parsepy.py:381-391 | different partitions get different names |
| ParsepyLinear.Far | build/lib/comptools/parsepy.py:340-343 | no longer than the vector, and every element kept lies more than 2 from the pitch |
| ParsepyLinear.FarFrom | build/lib/comptools/parsepy.py:340-343 | every element kept is an element of the vector |
| ParsepyLinear.Linvectors | build/lib/comptools/parsepy.py:327-347 | one non-empty vector per pitch |
| ParsepyLinear.LinvectorsHeld | build/lib/comptools/parsepy.py:334-347 | vector i ends with pitch i, and its other entries lie more than 2 from it |
| ParsepyLinear.NextFrom | build/lib/comptools/parsepy.py:337-345 | the loop body computes the next vector |
| ParsepyLinear.LinvectorsList | build/lib/comptools/parsepy.py:327-347 | IndexError on an empty melody, otherwise Linvectors |
| ParsepyLinear.LinvectorEntries | build/lib/comptools/parsepy.py:334-347 | every entry of vector i is a pitch heard up to pitch i |
| ParsepyLinear.LinearPartitions | build/lib/comptools/parsepy.py:350-378 | len(pitches) labels, the first "N", or IndexError on an empty melody |
| ParsepyLinear.RepeatLabel | build/lib/comptools/parsepy.py:362-364 | a step is "R" exactly when the melody repeats the pitch |
| ParsepyLinear.NewLabel | build/lib/comptools/parsepy.py:371-372 | a step is "N" exactly when no pitch of the previous vector lies within 2 |
| ParsepyLinear.FarShorter | build/lib/comptools/parsepy.py:340-343 | the vector loses something exactly when some element is close |
| ParsepyGraph.BuildGraph | build/lib/comptools/parsepy.py:466-478 | one key per node, mapped to its adjacency list |
| ParsepyGraph.EdgeAdded | build/lib/comptools/parsepy.py:474-477 | adding one edge to the dictionary of the first i edges gives that of the first i + 1 |
| ParsepyGraph.AdjacentMeansEdge | build/lib/comptools/parsepy.py:473-478 | b is a neighbour of a exactly when an edge joins them |
| ParsepyGraph.AdjacentSymmetric | build/lib/comptools/parsepy.py:473-478 | the graph is undirected |
| ParsepyGraph.BuiltGraphClosed | build/lib/comptools/parsepy.py:466-478 | every neighbour is a key |
| ParsepyGraph.WalkEndsAtKey | build/lib/comptools/parsepy.py:481-506 | in such a graph a walk from a key ends at a key |
| ParsepyGraph.QueueNeighbours | build/lib/comptools/parsepy.py:495-504 | the inner loop queues each neighbour's extended walk and stops at the goal |
| ParsepyGraph.ShortestPath | build/lib/comptools/parsepy.py:481-506 | [start] for start == goal; otherwise a walk from start to goal no longer than any other, or [] only when goal is unreachable, or KeyError on a node that is no key |
| ParsepyGraph.Visit | build/lib/comptools/parsepy.py:495-505 | one pass of the outer loop keeps the breadth-first search state, or returns a shortest walk, or KeyError |
| ParsepyGraph.LevelUp | build/lib/comptools/parsepy.py:494-505 | once no path of the current length is queued, every walk that short ends at an explored node |
| ParsepyGraph.PopStep | build/lib/comptools/parsepy.py:495-505 | popping and exploring the front path keeps every walk of the current length ending at an explored or queued node |
| ParsepyGraph.GoalFar | build/lib/comptools/parsepy.py:499-504 | no walk to the goal is as short as the current level, so the first walk found is a shortest one |
| TwelveTone.MorrisRotTrichord | comptools/twelve_tone.py:33-39 | the four trichords of a twelve-tone row in reverse order, each kept in order |
| TwelveTone.MorrisRotInvolution | comptools/twelve_tone.py:33-39 | rotating twice gives the row back |
| TwelveTone.MorrisRotPermutation | comptools/twelve_tone.py:33-39 | the rotation keeps every pitch class as often as it occurs |
| TwelveTone.FindCombs | comptools/twelve_tone.py:99-130 | too few rows or a part longer than its row fail; on success the extra rows join the rests |
| TwelveTone.FindCombsFound | comptools/twelve_tone.py:111-130 | success exactly when the sorted pieces are 0..11 |
| TwelveTone.FoundPartSumsTo12 | comptools/twelve_tone.py:111-130 | on success non-negative parts sum to 12 |
| TwelveTone.OrderRep | comptools/twelve_tone.py:223-232 | item i is (i, pcset[i]) |
| TwelveTone.FindLastPc | comptools/twelve_tone.py:244-247 | the inner loop finds the last pair with the pitch class |
| TwelveTone.TranspositionOrderRep | comptools/twelve_tone.py:235-248 | slot i holds the pair whose class is i transposed by n |
| TwelveTone.InversionOrderRep | comptools/twelve_tone.py:251-264 | slot i holds the pair whose class is i inverted and transposed by n |
| TwelveTone.TranspositionPermutes | comptools/twelve_tone.py:242-248 | on a full row every slot is filled, slot i with class (pc_i + n) mod 12, and the pairs are permuted |
| TwelveTone.InversionPermutes | comptools/twelve_tone.py:258-264 | on a full row slot i has class (12 - pc_i + n) mod 12, and the pairs are permuted |
| TwelveTone.OrderInversions | comptools/twelve_tone.py:267-283 | the count of pairs i < j whose order numbers are out of order |
| TwelveTone.CountBelow | comptools/twelve_tone.py:278-280 | the inner loop adds the number of later order numbers smaller than orders[i] |
| TwelveTone.InversionsBound | comptools/twelve_tone.py:275-283 | at most n(n-1)/2 |
| TwelveTone.OrderRepNoInversions | comptools/twelve_tone.py:223-283 | 0 on order_rep output |
| TwelveTone.PermutationCycles | comptools/twelve_tone.py:286-301 | the loop computes Cycles |
| TwelveTone.CyclesMembers | comptools/twelve_tone.py:293-301 | (i,) for a fixed point, the sorted pair otherwise, and nothing else |
| TwelveTone.CyclesDistinct | comptools/twelve_tone.py:293-301 | no entry is collected twice |
| TwelveTone.OrderRepCycles | comptools/twelve_tone.py:223-301 | a row in its own order has only fixed points |
| TwelveTone.DyadIntervalPairs | comptools/twelve_tone.py:304-312 | six intervals mod 12, or IndexError on fewer than twelve elements |
| TwelveTone.DyadsTranspositionInvariant | comptools/twelve_tone.py:304-312 | transposing a row keeps its dyad intervals |
| TwelveTone.DyadsInversion | comptools/twelve_tone.py:304-312 | inverting a row turns each interval d into (12 - d) mod 12 |
| TwelveTone.RowPartition | comptools/twelve_tone.py:338-353 | the loop computes Chunks |
| TwelveTone.ChunksFlatten | comptools/twelve_tone.py:347-353 | the chunks put together are the first sum(part) elements, or the whole row |
| Hindemith.CombinationsMembers | hindemith.py:50 | combinations(s, 2) lists exactly the pairs of positions i < j |
| Hindemith.CombinationsCount | hindemith.py:50 | n(n-1)/2 pairs |
| Hindemith.RootInterval | hindemith.py:10-38 | one of the two pitches, or 0 when the classes are equal or a tritone apart |
| Hindemith.RootIntervalSymmetric | hindemith.py:19-38 | the root does not depend on the order of the pitches |
| Hindemith.IntervalStrength | hindemith.py:73-89 | in 0..5, 0 for unison and tritone |
| Hindemith.StrengthIsIntervalClass | hindemith.py:80-89 | equal to the interval class except on the tritone |
| Hindemith.StrengthSymmetric | hindemith.py:80-89 | the strength does not depend on the order of the pitches |
| Hindemith.PairIntervalsMembers | hindemith.py:50-51 | x is listed exactly when some pair lies x apart |
| Hindemith.NoRoot | hindemith.py:41-70 | IndexError on the empty chord; otherwise true or false |
| Hindemith.NoRootCases | hindemith.py:51-68 | with a tritone, rootless exactly when no pair is 4, 8, 5 or 7; without, false above three notes and else the stack test |
| Hindemith.NoRootMissesAugmentedOnE | hindemith.py:62-66 | the augmented triad E G# C counts as having a root |
| Hindemith.NoRootCorrected | hindemith.py:41-70 | no_root with the stack comparison sorted on both sides |
| Hindemith.NoRootCorrectedCases | hindemith.py:59-68 | the corrected test holds exactly when the classes are those of a stack on chord[0], in any order |
| Hindemith.CorrectedAugmentedRootless | hindemith.py:62-66 | every augmented triad is rootless under the corrected test |
| Hindemith.CorrectedQuartalRootless | hindemith.py:62-66 | so is every stack of two fourths |
| Hindemith.RootForces | hindemith.py:116-129 | one entry per pair, each strength in 0..5 |
| Hindemith.IntervalRootForce | hindemith.py:124-129 | the loop computes RootForces |
| Hindemith.NonZerosEmpty | hindemith.py:105 | no non-zero entries exactly when every entry is 0 |
| Hindemith.HighIndices | hindemith.py:105-110 | the positions of the greatest non-zero strength, or ValueError when all are 0 |
| Hindemith.RootOutcome | hindemith.py:100-113 | given the rootless verdict: IndexError from an empty chord, UnboundLocalError when rootless, IndexError below two notes, ValueError when every strength is 0, otherwise the root of the first strongest pair |
| Hindemith.RootAfterTest | hindemith.py:101-113 | the result satisfies RootOutcome for the verdict it is given |
| Hindemith.FindRoot | hindemith.py:92-113 | RootOutcome with no_root as written: UnboundLocalError on a rootless chord; otherwise the root of the first strongest pair |
| Hindemith.FindRootCorrected | hindemith.py:92-113 | RootOutcome with the corrected rootless test |
| Hindemith.StrongestIsFirstMax | hindemith.py:105-113 | the first strongest pair is the one list.index finds |
| Hindemith.Classification | hindemith.py:132-182 | with no_root as written; the only errors are ValueError and UnboundLocalError |
| Hindemith.ClassificationCorrected | hindemith.py:132-182 | the same with the corrected rootless test |
| Hindemith.ClassifyAs | hindemith.py:139-182 | the classification given the rootless verdict; the only errors are ValueError and UnboundLocalError |
| Hindemith.LabelOf | hindemith.py:144-182 | every label is one of Hindemith's; a group B label exactly with a tritone; a root-in-bass label only with the root in the bass and an upper-root label only with it above, both only for chords with a root; the one error is UnboundLocalError |
| Hindemith.ClassificationLabels | hindemith.py:132-182 | for both rootless tests, ValueError exactly below two notes, and every label is one of Hindemith's groups |
| Hindemith.ClassificationUnassigned | hindemith.py:157-169 | for both rootless tests, chord_type stays unassigned exactly for a root, a single tritone and no second or seventh |
| Hindemith.LabelUnassigned | hindemith.py:145-169 | the same for any rootless verdict |
| Hindemith.ClassificationTritone | hindemith.py:145-182 | for both rootless tests, group B exactly when the chord holds a tritone |
| Hindemith.ClassificationRootless | hindemith.py:145-149 | chords no_root calls rootless are V, or VI with a tritone |
| Hindemith.ClassificationRootlessCorrected | hindemith.py:145-149 | chords the corrected test calls rootless are V, or VI with a tritone |
| Hindemith.ClassificationBass | hindemith.py:150-182 | for both rootless tests, a root-in-bass label means the root is the first note and an upper-root label that it is not |
| Hindemith.AugmentedOnEStrengths | hindemith.py:139-144 | the pairs of [4, 8, 12] all have strength 4, and the first strongest, E G#, has root E |
| Hindemith.AugmentedOnEPairs | hindemith.py:139 | the three pairs of [4, 8, 12] in combinations order |
| Hindemith.AugmentedOnEClassified | hindemith.py:145-182 | on [4, 8, 12] the classification is I.1 as written and V with the corrected test |
| Hindemith.AugmentedOnERoot | hindemith.py:100-113 | on [4, 8, 12] find_root gives 4 as written and raises UnboundLocalError with the corrected test |
| Hindemith.ClassificationRootIsFirstStrongest | hindemith.py:139-143 | the classification root is find_root's |
| Hindemith.TritoneOfPitchClasses | hindemith.py:46-52 | a tritone between the pitches, as hindemith_classification measures it, is one between their pitch classes, as no_root measures it |
| Lisparser.LexTokens | comptools/lisparser.py:22-23 | every token is a lone parenthesis or a run free of parentheses and whitespace |
| Lisparser.LexSpells | comptools/lisparser.py:22-23 | the tokens spell the program without its whitespace |
| Lisparser.TokenizeProgramSpells | comptools/lisparser.py:18-29 | without a leading double quote the tokens spell the program without whitespace |
| Lisparser.TokenizeProgramQuoted | comptools/lisparser.py:25-27 | with one, the first and last tokens go unless that leaves nothing |
| Lisparser.TokenizeProgramGood | comptools/lisparser.py:18-29 | every token is good |
| Lisparser.ToPyTypeOfText | comptools/lisparser.py:44-56 | a non-zero integer reads back as itself and "0" stays a string |
| Lisparser.Parse | comptools/lisparser.py:58-80 | IndexError when the stack runs out; otherwise a parse and fewer tokens |
| Lisparser.UnclosedFails | comptools/lisparser.py:73 | a missing ")" raises IndexError |
| Lisparser.AtomRoundTrip | comptools/lisparser.py:52-56 | a readable atom's token converts back to the atom |
| Lisparser.ParseSerialize | comptools/lisparser.py:58-80 | the tokens of a readable parse read back to it, leaving what follows on the stack |
| Lisparser.LisParser.constructor | comptools/lisparser.py:10-16 | the stack holds every token of the program |
| Lisparser.LisParser.RecursiveUnpack | comptools/lisparser.py:58-80 | the result is Parse of the old stack and the stack is what Parse leaves |
| Similarity.Forte | comptools/similarity.py:16-41 | None exactly for sets of different sizes; the only error is UnboundLocalError |
| Similarity.ForteNoneOrR0 | comptools/similarity.py:24-31 | None exactly for different sizes; "R0" exactly when no slot agrees |
| Similarity.ForteFourAgreeing | comptools/similarity.py:32-39 | with four agreeing slots "R1" exactly when the two differing slots hold each other's values, else "R2" |
| Similarity.ForteUnbound | comptools/similarity.py:41 | any other number of agreeing slots raises UnboundLocalError |
| Similarity.ForteNeverFiveAgreeing | comptools/similarity.py:29-41 | five agreeing slots cannot happen for sets of the same size |
| Similarity.ForteSymmetric | comptools/similarity.py:16-41 | the relation does not depend on the order of the sets |
| Similarity.Distance | comptools/similarity.py:52-57 | the L1 distance is non-negative |
| Similarity.Morris | comptools/similarity.py:44-57 | the loop computes MorrisOf |
| Similarity.MorrisIsDistance | comptools/similarity.py:52-57 | symmetric, zero exactly for equal vectors, triangle inequality |
| Similarity.Rahn | comptools/similarity.py:72-89 | the loop computes RahnOf |
| Similarity.SharedBounds | comptools/similarity.py:81-89 | between 0 and the total of both, 0 exactly when no slot is non-zero in both |
| Similarity.RahnProperties | comptools/similarity.py:72-89 | symmetric, bounded by both totals, 0 exactly for disjoint interval content, n(n-1) for a set with itself |
| Similarity.TextSetClass | comptools/similarity.py:160-179 | the words of the interval vector joined by single spaces |
| Similarity.WordsLength | comptools/similarity.py:167-179 | one word per unit of the vector |
| Similarity.TextSetClassWords | comptools/similarity.py:160-179 | the text splits into n(n-1)/2 words, word i as often as slot i counts |
| Kozu.Ones | build/lib/comptools/kozu.py:23-25 | n ones, none for n <= 0 |
| Kozu.MakeBeatCycle | build/lib/comptools/kozu.py:11-27 | ZeroDivisionError for an empty cycle, otherwise BeatCycleOf |
| Kozu.BeatCycleAt | build/lib/comptools/kozu.py:19-27 | max(num_bars, 0) bars, bar i holding beat_cycle[i mod len] ones |
| Kozu.FlatBeatCycle | build/lib/comptools/kozu.py:19-27 | the flattened cycle is a run of ones as long as the beats in the bars |
| Kozu.BeatsInWholeCycles | build/lib/comptools/kozu.py:19-27 | k whole turns hold k times the cycle's beats |
| Kozu.MakeBarCycle | build/lib/comptools/kozu.py:29-42 | ZeroDivisionError for an empty cycle, otherwise BarCycleOf |
| Kozu.BarCycleAt | build/lib/comptools/kozu.py:37-42 | num_bars entries, entry i is bar_cycle[i mod len] |
| Kozu.BarCyclePeriodic | build/lib/comptools/kozu.py:37-42 | the result repeats with the cycle's length |
| Kozu.BarCycleWholeTurns | build/lib/comptools/kozu.py:37-42 | one more turn appends the cycle itself |
| Graphs.BuildGraph | graphs.py:10-25 | keys are the edge sources, each mapped to its targets |
| Graphs.TargetsMeansEdge | graphs.py:19-22 | b is listed under a exactly when an edge goes from a to b |
| Graphs.SourcesMeansEdge | graphs.py:18-23 | the keys are exactly the sources; target-only nodes get no key |
| Graphs.TargetsNoDuplicates | graphs.py:21 | no list holds a node twice |
| Graphs.TargetsInEdgeOrder | graphs.py:19-22 | lists keep the order of each target's first edge |
| Graphs.OneEdge | graphs.py:10-25 | one edge lists its target under its source and nothing under the target |
| Parsemaker.MakeFullScale | comptools/parsemaker.py:67-88 | IndexError exactly for an empty scale or a short range; otherwise note k is rang[0] + 12(k div n) + scale[k mod n], all but the last below rang[1], the last at or above |
| Parsemaker.NotesIncrease | comptools/parsemaker.py:79-83 | with degrees rising inside an octave the scale rises strictly |
| Parsemaker.StopWitness | comptools/parsemaker.py:76-86 | some note reaches the top of the range, so the loop ends |
| Scampshorts.ConsonanceSymmetric | build/lib/comptools/scampshorts.py:32-36 | consonance does not depend on the order of the pitches nor on a common transposition |
| Scampshorts.FirstOption | build/lib/comptools/scampshorts.py:45-52 | None exactly when no option is consonant; otherwise a consonant one |
| Scampshorts.FirstOptionIsFirst | build/lib/comptools/scampshorts.py:45-50 | the option chosen is the first consonant entry of motion_option |
| Scampshorts.ChooseOption | build/lib/comptools/scampshorts.py:45-52 | the for/else loop computes FirstOption |
| Scampshorts.MakeCounterpoint | build/lib/comptools/scampshorts.py:39-54 | appends to and returns the caller's list, or IndexError with the list unchanged |
| Scampshorts.ExtendKeeps | build/lib/comptools/scampshorts.py:40-53 | existing notes stay, at most one appended per step |
| Scampshorts.MakeCounterpointSteps | build/lib/comptools/scampshorts.py:39-54 | at most len(cantus_firmus) - 1 notes appended, note L+k is note k moved by the first consonant option, and an early stop is at a step with no consonant option |
| Scampshorts.EmptyCounterpoint | build/lib/comptools/scampshorts.py:40-46 | on an empty counterpoint the first step that tries an option raises IndexError |
| Abjadtools.MakeRtm | comptools/abjadtools.py:72-87 | "(1 (" followed by the rewrite of old_rtm[4:], or StopIteration |
| Abjadtools.RewriteOnto | comptools/abjadtools.py:81-86 | the loop appends the rewrite of each character to the text so far, or stops with StopIteration when the data runs out |
| Abjadtools.RewriteOk | comptools/abjadtools.py:81-84 | succeeds exactly when there are as many data items as alphanumeric characters; otherwise StopIteration |
| Abjadtools.RewriteParts | comptools/abjadtools.py:82-86 | non-alphanumeric characters copied in order; the alphanumeric ones become the numerals of the data drawn, in order |
| Abjadtools.SingleDigitShape | comptools/abjadtools.py:82-86 | with single-digit data each alphanumeric character is replaced by the digit of its data item |

## Left out

- Score, file and plot I/O is not modelled. This covers `extract_parts`,
  `split_chord`, `partitional_analysis`, `make_partitiogram`,
  `partitiograph`, `partitiograph_linear` and `make_catalog_dict`. These
  functions call music21, graphviz and matplotlib.
- build/lib/comptools/testam.py is not part of this model: it reads a file
  and shows a score when imported.
- Notation rendering is not modelled: `make_staff_divisions`,
  `ferneyhough`, `make_tree` and `tree_rotations` build abjad objects.
- Playback is not modelled: `text_to_music` and `do_isorhythm` drive scamp.
  `fib_cycle` follows a `return` and can never run.
- Random choices are not modelled: `build_from_markov`, `part_frags`,
  `create_part_melody` and `build_chord`.
- Floating point is not modelled: `Sieve.unitsegment` and
  `_canonic_unitsegment`, `lord`, `rahn_mod`, `lewin`, `teitelbaum`,
  `isaacson`, `group_tuplets` and `make_golden`. The sieve keeps only the
  IndexError that `unitsegment` raises on an empty segment.
- ParsepyIndices.BinaryRelations: Python's `/` yields a float. The model
  gives the exact integer n(n-1)/2, which the float equals for every size
  that fits a double exactly.
- Lisparser.ToPyType: atoms that Python would turn into floats stay
  strings. An atom is only an integer or a string in the model.
- Python's `int()` is modelled on ASCII digits, signs, surrounding
  whitespace and single underscores between digits. Unicode digits are not
  modelled. Whitespace, here and in `str.split()` and `str.strip()`, is
  the full set `str.isspace()` accepts.
- Abjadtools.MakeRtm takes its data as integers. Python's `make_rtm`
  splices in `str()` of an item of any type; items that are not integers
  are not modelled.
- Abjadtools.RewriteOk and the other `make_rtm` members use an ASCII
  `isalnum`. Python's `str.isalnum` also accepts non-ASCII letters and
  digits.
- Thin wrappers over code not shown are not modelled:
  - `twelve_tone_matrix`, `stravinsky_rotation`, `simile_table` and
    `text_sim` (pandas, numpy, scikit-learn);
  - `twelve_tone.all_partitions`, which reads permutation tables that are
    not in the repository;
  - `kozu()` and `rot_measure`, which need an attribute of a pycse object;
  - `twelve_tone_pallette` and `pedro_chords_palette`, which import
    functions comptools/basic_tools.py does not define.
- These helpers lie outside the modelled core and no modelled operation
  calls them: the remaining helpers of `twelve_tone` (`imbricated`, `rotate_subset`,
  `compare_dyads`, `find_partitions_from_result`,
  `boulez_matrix_multiplication`, `pedro_chords`), and `index_vector`,
  `multiplication`, `contour_profile`, `all_subsets`, `flatten_sequence`,
  `simple_multiplication` and `complex_multiplication` of `basic_tools`.
  `find_operator` and `creat_op_graph` of `parsepy` are not modelled either.
- ParsepyPartitions.AccelAsc: the contract proves that every list produced
  is a non-decreasing partition of n and that the lists rise strictly in
  lexicographic order, so none repeats. It does not prove that every
  partition of n is produced; that would need a counting argument over all
  partitions.
- ParsepyPartitions.AllPartitions: the same gap; it lists distinct
  partitions of n, not provably all of them.
- ParsepyPartitions.YoungRet: the same gap for each sum from 1 to n.
- Python object identity is not modelled. `Compress._process` tests
  `not in` on freshly built residuals, which always holds, and the model
  appends every class it finds.
- setup.py and __init__.py (packaging) are not modelled.

## Findings

| source | as written | input that shows it | evidently intended | confidence | as-written member | corrected member |
|---|---|---|---|---|---|---|
| hindemith.py:62-66 | `sorted(chord) in [aug, quart]` compares a sorted list with stacks built upward from chord[0], which may wrap past 12 and so be unsorted | the augmented triad E G# C, pitches [4, 8, 12], classed I.1 instead of V | the chord's pitch classes equal those of the augmented or quartal stack on chord[0], in any order, so the triad is rootless | high, not executed | Hindemith.AugmentedOnEClassified | Hindemith.CorrectedAugmentedRootless |
| comptools/basic_tools.py:77-78 | `retrograde` returns `sequence[-1:]`, only the last element | [0, 1] gives [1] | the reversal its docstring describes, [1, 0] | high, not executed | PitchCore.RetrogradeLastIsNotReverse | PitchCore.ReverseInvolution |
| basic_tools.py:148 | `inversion_pitch_classes` returns `12 - pc` without reducing it | pitch class 0 gives 12 | (12 - pc) mod 12, a pitch class, as the other two copies compute | medium, not executed | BasicToolsRoot.InversionOfZeroLeavesRange | PitchCore.InvertedClassesInvolution |
