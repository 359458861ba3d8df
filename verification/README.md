# Verified models of the hard parts of Breakpad

Breakpad writes symbol files from debugging information and reads them again to walk stacks. This
project models the parts of it that are easiest to get wrong and proves what they are for. Code that
works in place is modelled as classes, arrays and loops, each proved against a function or a predicate;
what the code promises is then proved about that function, for all inputs and all runs.

- **Lines and functions** (`Words`, `Coverage`, `LineSweep`, `LineCollection`): one pass in wrapping
  64-bit arithmetic assigns line records to functions. It is proved to compute the intersections, and
  to end for any sorted input.
- **Contained ranges** (`OrderedKeys`, `RangeForest`, `ContainedRangeMap`): a tree of nodes on the heap
  that is proved to stand for a set of nested or separate ranges.
- **Character encodings** (`UtfReference`, `ConversionRun`, `UtfSteps`, `UtfStrict`, `UtfTheorems`,
  `UtfConversions`, `UtfConverters`, `UtfLenient`, `StringConversion`): the six converters against
  RFC 3629 and RFC 2781, round trips, conversion in pieces, and what lenient conversion keeps.
- **Call frame information** (`CText`, `CfiRules`, `CfiText`, `CfiFrameInfo`, `DecimalNumbers`,
  `PostfixEvaluator`, `HexNumbers`, `RangeMaps`, `SymbolFile`, `SymbolParseHelper`, `SourceLineResolver`,
  `SymbolLines`, `SymbolHeader`, `CfiRecords`, `CfiTranslation`, `DwarfCfi`, `DwarfToRules`,
  `CallerRegisters`): from the calls of a DWARF parser through the characters of a whole symbol file to
  the rules in force at an address, and to the registers of the caller that they recover.
- **STABS** (`ByteCursor`, `StabsStream`, `StabsReader`, `StabsBytes`, `StabsGrammar`, `StabsToModule`,
  `StabsLoader`): nested loops over a byte cursor are proved to do what one pass with a mode says, which
  follows the protocol that the handler asserts, and to make the calls that the structure of the section
  describes; the sizes inferred in the end are sound. Reader and handler together take any section.
- **Storage** (`PageAllocator`, `StringDictionary`, `LongStringDictionary`): an allocator of pages, and
  a dictionary of long values over a fixed number of short slots.
- **MD5** (`MD5`, `MD5Final`): the unrolled transformation against RFC 1321, messages that come in
  pieces, and how they end.

`dafny verify dfyconfig.toml` checks all of it.

## Where the code does less than it says

- `isLegalUTF8` is documented to tell whether bytes are legal UTF-8, but it does not check the lower
  bound of the second byte after 0xED and 0xF4 (convert_UTF.c, lines 321 to 330). So conversion accepts
  more than section 4 of RFC 3629 allows. `UtfConversions.AcceptedUtf8` states exactly how much more,
  `UtfConversions.AcceptedButMalformed` gives an example, and `UtfConversions.RoundTripUtf8` says that
  these are just the accepted texts that do not survive a round trip.
- convert_UTF.h (lines 74 to 77) has irregular sequences converted when the flag is lenient. From UTF-8
  they are illegal with either flag; lenient conversion is strict (`UtfLenient.LenientFrom8IsStrict`).
- The program writes the length of a message at the wrong place for MD5 and leaves the last eight bytes
  of the block as they were (md5.cc, lines 135 to 142), so what it transforms in the end is not what
  the standard does (`MD5Finals.EndingIsStandard`, `MD5Finals.OnlyNothingIsStandard`).
- A rule that cites the return address column has no value for the walker, since its name is .ra
  (`CallerRegisters.RuleIsMeant`).
- A NUL ends a rule set for the parser, so it may not be continued behind one
  (`CfiFrameInfos.ParseInPieces`, `CfiFrameInfos.InPiecesExactly`, `CfiFrameInfos.ParseInPiecesNeedsText`).
- A stack frame entry that reaches across the load address is lost, and only such an entry is
  (`CfiTranslation.TranslationKeepsMeaning`, `CfiTranslation.StraddlingEntryIsLost`).
- A set of no rules is printed as an empty text, which the parser rejects (`CfiFrameInfos.ParseUndoesSerialize`).
- The size that `PageAllocator` computes may overflow; `PageAllocators.PagesAreEnough` says when it does not.
- The fallback size is meant to be used at most once per module. It is used at one address at most, but
  for every function there, and near the end of the address space the function it is given to passes
  that end (`StabsToModules.SizesAreSound`).
- A key too long for a slot is stored without its end and not found again
  (`StringDictionaries.KeyAppearsOnce`).
- A long value is cut off without notice when the slots run out; `LongStringDictionaries.SetThenGet`
  says where.

## Model

| member | source | states |
|---|---|---|
| `LineSweep.AssignLinesToFunctions` | breakpader-core/src/main/jni/breakpad/src/common/dwarf_cu_to_module.cc:847-1036 | The single pass over sorted functions and lines. Both containment assertions and the progress assertion hold and the pass ends for every sorted, non-empty, non-wrapping input, overlapping or not; when no functions and no lines overlap, each function gains exactly its intersections with the lines, and functions and lines are reported as uncovered exactly when due |
| `LineSweep.HandleState` | breakpader-core/src/main/jni/breakpad/src/common/dwarf_cu_to_module.cc:941-1008 | One round of the pass appends a record just for the current function and line, and reports just what has come to light, each once; the next transition is the first after the current one |
| `LineSweep.CoveredByBoth` | breakpader-core/src/main/jni/breakpad/src/common/dwarf_cu_to_module.cc:948-957 | In both a function and a line the next transition is the nearer of their ends, and the function gains the line from here to there |
| `LineSweep.CoveredByFunction` | breakpader-core/src/main/jni/breakpad/src/common/dwarf_cu_to_module.cc:959-968 | In a function only, the next transition is its end or the next line, whichever is first, and the function is reported unless it was the last one reported |
| `LineSweep.CoveredByLine` | breakpader-core/src/main/jni/breakpad/src/common/dwarf_cu_to_module.cc:971-994 | In a line only, the next transition is its end or the next function, whichever is first, and the line is reported unless it was the last one reported or ends in padding after its last use |
| `LineSweep.HandleTransition` | breakpader-core/src/main/jni/breakpad/src/common/dwarf_cu_to_module.cc:936-1008 | Up to the next transition the records and the reports are again exactly those of all bytes below it |
| `LineSweep.Round` | breakpader-core/src/main/jni/breakpad/src/common/dwarf_cu_to_module.cc:914-1034 | One iteration of the loop: its assertions hold, it makes progress, and the current function and line are again the first that contain or follow the position; it ends with zero only at the end of the address space |
| `LineSweep.AdvanceFunction` | breakpader-core/src/main/jni/breakpad/src/common/dwarf_cu_to_module.cc:1021-1025 | Skips just the functions that end at or before the next transition |
| `LineSweep.AdvanceLine` | breakpader-core/src/main/jni/breakpad/src/common/dwarf_cu_to_module.cc:1026-1030 | Skips just the lines that end at or before the next transition |
| `LineSweep.StepEffect` | breakpader-core/src/main/jni/breakpad/src/common/dwarf_cu_to_module.cc:946-1008 | What one round adds to the records is what the intersections grow by |
| `LineSweep.StepMemory` | breakpader-core/src/main/jni/breakpad/src/common/dwarf_cu_to_module.cc:867-874 | The variables that remember what was reported last stay right over each round |
| `LineSweep.PaddingTest` | breakpader-core/src/main/jni/breakpad/src/common/dwarf_cu_to_module.cc:972-989 | The test for padding between functions recognises it exactly |
| `LineSweep.WithinIsContains` | breakpader-core/src/main/jni/breakpad/src/common/dwarf_cu_to_module.cc:837-844 | The wrapping test for containment is containment when the range does not wrap around |
| `Coverage.PiecesAreIntersections` | breakpader-core/src/main/jni/breakpad/src/common/dwarf_cu_to_module.cc:948-957 | The records of a function are its non-empty intersections with the lines, one for each line that meets it, in the order of the lines |
| `Coverage.PiecesPointwise` | breakpader-core/src/main/jni/breakpad/src/common/dwarf_cu_to_module.cc:857-858 | A byte of a function carries a file and number iff it lies in a line with them |
| `Coverage.PiecesInOrder` | breakpader-core/src/main/jni/breakpad/src/common/dwarf_cu_to_module.cc:948-957 | Records lie inside their function, in address order and without overlap |
| `Coverage.UncoveredFunctionsExactly` | breakpader-core/src/main/jni/breakpad/src/common/dwarf_cu_to_module.cc:958-963 | A function is reported, and once, iff some byte of it has no line |
| `Coverage.UncoveredLinesExactly` | breakpader-core/src/main/jni/breakpad/src/common/dwarf_cu_to_module.cc:971-989 | A line is reported, and once, iff some byte of it has no function and is not padding behind one |
| `Coverage.SortedDisjointInOrder` | breakpader-core/src/main/jni/breakpad/src/common/dwarf_cu_to_module.cc:862-865 | Sorted non-empty ranges that do not overlap each end before the next begins |
| `LineCollection.Collector.AddLine` | breakpader-core/src/main/jni/breakpad/src/common/dwarf_line_to_module.cc:106-141 | Clips a line at the end of the address space, and keeps it iff it is not empty, not in an omitted run, and its file is defined |
| `LineCollection.Collector.Collected` | breakpader-core/src/main/jni/breakpad/src/common/dwarf_line_to_module.cc:83-141 | In terms of the calls received: a non-empty line outside omitted runs is kept iff an earlier call gave its file number, and it is recorded under the name given last, with its own address and number and its size cut off at 2^64; a call of DefineFile gives its own number, or for -1 one more than the greatest given before it |
| `LineCollection.LinesAreCollected` | breakpader-core/src/main/jni/breakpad/src/common/dwarf_line_to_module.cc:83-141 | The same of the first calls of any series |
| `LineCollection.NumberingExists` | breakpader-core/src/main/jni/breakpad/src/common/dwarf_line_to_module.cc:83-86 | Every series of calls gives numbers in this way |
| `LineCollection.Collector.DefineFile` | breakpader-core/src/main/jni/breakpad/src/common/dwarf_line_to_module.cc:73-104 | Numbers files, with -1 for the number behind the highest |
| `LineCollection.CallsGrow` | breakpader-core/src/main/jni/breakpad/src/common/dwarf_line_to_module.cc:116-123 | The omitted run after one more call: lines at address zero and lines that abut the line omitted just before |
| `LineCollection.CollectedLinesAreProper` | breakpader-core/src/main/jni/breakpad/src/common/dwarf_line_to_module.cc:106-141 | In whatever order they are sorted, the kept lines meet what the sweep requires of lines, and none is at address zero |
| `LineCollection.FinishFunction` | breakpader-core/src/main/jni/breakpad/src/common/dwarf_cu_to_module.cc:533-568 | Records a function iff its range is not empty and does not start at address zero, so functions meet what the sweep requires of them |
| `RangeForest.StoreExact` | breakpader-core/src/main/jni/breakpad/src/processor/contained_range_map-inl.h:57-147 | A store succeeds iff the range is not empty, does not wrap around, equals no stored range and overlaps none in part; then just that range is added, else nothing changes; the tree stays well formed |
| `RangeForest.RetrieveSmallest` | breakpader-core/src/main/jni/breakpad/src/processor/contained_range_map-inl.h:151-178 | A lookup finds the entry of the smallest stored range that holds the address, and none iff none does |
| `RangeForest.StoreAllRefinesSet` | breakpader-core/src/main/jni/breakpad/src/processor/contained_range_map-inl.h:57-147 | Over every run of stores the tree stands for a plain set of ranges, any two of which are nested or apart |
| `RangeForest.InsertionOrderIsIrrelevant` | breakpader-core/src/main/jni/breakpad/src/processor/contained_range_map.h:40-49 | Two insertion orders of the same nested or separate ranges give the same answer at every address |
| `RangeForest.RetrieveDependsOnItems` | breakpader-core/src/main/jni/breakpad/src/processor/contained_range_map-inl.h:151-178 | Trees that hold the same ranges give the same answers |
| `RangeForest.WellFormedIsLaminar` | breakpader-core/src/main/jni/breakpad/src/processor/contained_range_map-inl.h:57-147 | Any two ranges in a well formed tree are nested or apart |
| `ContainedRanges.ContainedRangeMap.StoreRange` | breakpader-core/src/main/jni/breakpad/src/processor/contained_range_map-inl.h:57-147 | Storing in the tree of nodes on the heap does to it what Store does to its value, children being moved under the new node in place |
| `ContainedRanges.ContainedRangeMap.RetrieveRange` | breakpader-core/src/main/jni/breakpad/src/processor/contained_range_map-inl.h:151-178 | Looking up in the tree of nodes gives what Retrieve gives on its value |
| `ContainedRanges.ContainedRangeMap.Clear` | breakpader-core/src/main/jni/breakpad/src/processor/contained_range_map-inl.h:182-191 | Leaves the node without children |
| `UtfConversions.AcceptedUtf8` | breakpader-core/src/main/jni/breakpad/src/common/convert_UTF.c:313-336 | A text is well-formed by section 4 of RFC 3629 iff strict conversion from UTF-8 accepts it and no byte 0xED or 0xF4 in it is followed by a byte below 0x80 |
| `UtfConversions.AcceptedButMalformed` | breakpader-core/src/main/jni/breakpad/src/common/convert_UTF.c:321-330 | The bytes ED 20 80 are accepted, though they are not UTF-8, and read as U+B800 |
| `UtfConversions.AcceptedUtf16` | breakpader-core/src/main/jni/breakpad/src/common/convert_UTF.c:130-182 | Strict conversion from UTF-16 accepts exactly the texts that section 2.2 of RFC 2781 can decode |
| `UtfConversions.Keeps8to16` | breakpader-core/src/main/jni/breakpad/src/common/convert_UTF.c:354-422 | The UTF-8 encoding of any scalar values becomes the UTF-16 encoding of the same values |
| `UtfConversions.Keeps8to32` | breakpader-core/src/main/jni/breakpad/src/common/convert_UTF.c:478-535 | The UTF-8 encoding of any scalar values becomes those values |
| `UtfConversions.Keeps16to8` | breakpader-core/src/main/jni/breakpad/src/common/convert_UTF.c:233-298 | The UTF-16 encoding of any scalar values becomes the UTF-8 encoding of the same values |
| `UtfConversions.Keeps16to32` | breakpader-core/src/main/jni/breakpad/src/common/convert_UTF.c:130-182 | The UTF-16 encoding of any scalar values becomes those values |
| `UtfConversions.RoundTripUtf8` | breakpader-core/src/main/jni/breakpad/src/common/convert_UTF.c:233-298 | From UTF-8 to UTF-16 and back an accepted text comes back unchanged iff it was well-formed |
| `UtfConversions.RoundTripUtf16` | breakpader-core/src/main/jni/breakpad/src/common/convert_UTF.c:233-298 | From UTF-16 to UTF-8 and back every well-formed text comes back unchanged |
| `UtfConversions.ThroughUtf32From8` | breakpader-core/src/main/jni/breakpad/src/common/convert_UTF.c:478-535 | Converting UTF-8 to UTF-16 directly or through UTF-32 is the same, also for malformed sources |
| `UtfConversions.ThroughUtf32From16` | breakpader-core/src/main/jni/breakpad/src/common/convert_UTF.c:426-474 | Converting UTF-16 to UTF-8 directly or through UTF-32 is the same, also for malformed sources |
| `UtfConversions.Interruptible8to16` | breakpader-core/src/main/jni/breakpad/src/common/convert_UTF.h:60-64 | On every return the units written are the conversion of just the source consumed, and any series of targets that suffices gives what one unbounded target would |
| `UtfConversions.Interruptible8to32` | breakpader-core/src/main/jni/breakpad/src/common/convert_UTF.c:507-510 | From UTF-8 to UTF-32: the units written are the conversion of just the source consumed, and any series of targets that suffices gives what one unbounded target would |
| `UtfConversions.Interruptible16to8` | breakpader-core/src/main/jni/breakpad/src/common/convert_UTF.c:282-286 | From UTF-16 to UTF-8: the bytes written are the conversion of just the source consumed, and any series of targets that suffices gives what one unbounded target would |
| `UtfConversions.Interruptible16to32` | breakpader-core/src/main/jni/breakpad/src/common/convert_UTF.c:167-170 | From UTF-16 to UTF-32: the units written are the conversion of just the source consumed, and any series of targets that suffices gives what one unbounded target would |
| `UtfLenient.LenientFrom8IsStrict` | breakpader-core/src/main/jni/breakpad/src/common/convert_UTF.c:354-422 | From UTF-8 to UTF-16 lenient conversion is strict conversion, on every source and in every room |
| `UtfLenient.LenientFrom8To32IsStrict` | breakpader-core/src/main/jni/breakpad/src/common/convert_UTF.c:478-535 | And so to UTF-32 |
| `UtfLenient.LenientFrom16LosesNothing` | breakpader-core/src/main/jni/breakpad/src/common/convert_UTF.c:138-166 | Lenient conversion decodes every text of UTF-16, but for a high surrogate at its end, and the units of the values are those of the text |
| `UtfLenient.LenientTotal16to32` | breakpader-core/src/main/jni/breakpad/src/common/convert_UTF.c:130-182 | Lenient conversion from UTF-16 to UTF-32 gives these values |
| `UtfLenient.LenientTotal16to8` | breakpader-core/src/main/jni/breakpad/src/common/convert_UTF.c:233-298 | Lenient conversion from UTF-16 to UTF-8 encodes these values |
| `UtfLenient.LenientFrom32` | breakpader-core/src/main/jni/breakpad/src/common/convert_UTF.c:82-126 | Lenient conversion to UTF-16 replaces just what is not a scalar value, and never fails |
| `UtfLenient.LenientFrom32To8` | breakpader-core/src/main/jni/breakpad/src/common/convert_UTF.c:426-474 | Lenient conversion to UTF-8 replaces just what is above 0x10FFFF, which spoils the result |
| `UtfConverters.ConvertUTF8toUTF16` | breakpader-core/src/main/jni/breakpad/src/common/convert_UTF.c:354-422 | The loop over source and target does what its step run over the source does, backs up exactly to the character that does not fit, and leaves the rest of the target alone |
| `UtfConverters.ConvertUTF8toUTF32` | breakpader-core/src/main/jni/breakpad/src/common/convert_UTF.c:478-535 | The loop does what its step run over the source does, within the target's bounds, and leaves the rest of the target alone; a value above 0x10FFFF would spoil the result without stopping the loop |
| `UtfConverters.ConvertUTF16toUTF8` | breakpader-core/src/main/jni/breakpad/src/common/convert_UTF.c:233-298 | The loop does what its step run over the source does, within the target's bounds, and leaves the rest of the target alone, with the bytes of a character written from the last to the first |
| `UtfConverters.ConvertUTF16toUTF32` | breakpader-core/src/main/jni/breakpad/src/common/convert_UTF.c:130-182 | The loop does what its step run over the source does, within the target's bounds, and leaves the rest of the target alone |
| `UtfConverters.ConvertUTF32toUTF16` | breakpader-core/src/main/jni/breakpad/src/common/convert_UTF.c:82-126 | The loop does what its step run over the source does, within the target's bounds, and leaves the rest of the target alone; strict conversion goes on behind a value above 0x10FFFF without writing anything for it |
| `UtfConverters.ConvertUTF32toUTF8` | breakpader-core/src/main/jni/breakpad/src/common/convert_UTF.c:426-474 | The loop does what its step run over the source does, within the target's bounds, and leaves the rest of the target alone; a value above 0x10FFFF becomes the replacement character and spoils the result |
| `UtfConverters.TakeUTF8` | breakpader-core/src/main/jni/breakpad/src/common/convert_UTF.c:359-381 | Stops at a cut off or illegal sequence, else takes one character with its value and length off the source |
| `UtfConverters.PutUTF16` | breakpader-core/src/main/jni/breakpad/src/common/convert_UTF.c:387-418 | Writes one unit or a pair, or stops without writing when the target is too small or the character may not be written |
| `UtfConverters.ReadUTF8` | breakpader-core/src/main/jni/breakpad/src/common/convert_UTF.c:373-381 | The falling-through switch with its shifts and the offset subtracted in the end reads the value of a character |
| `UtfConverters.WriteUTF8` | breakpader-core/src/main/jni/breakpad/src/common/convert_UTF.c:287-292 | The falling-through switch writes the bytes of a character backwards and nothing else |
| `UtfConverters.ReadUTF16` | breakpader-core/src/main/jni/breakpad/src/common/convert_UTF.c:138-166 | Takes a surrogate pair or a single unit off the source |
| `UtfSteps.LegalIsLoose` | breakpader-core/src/main/jni/breakpad/src/common/convert_UTF.c:313-336 | The test for legal sequences, with the length from the table, accepts just the characters of the reference syntax and those with a short second byte after 0xED or 0xF4 |
| `UtfStrict.LooseIsScalar` | breakpader-core/src/main/jni/breakpad/src/common/convert_UTF.c:366-381 | What is read from an accepted sequence is a scalar value, and by the syntax the one that the reference decodes |
| `UtfStrict.Strict8to16` | breakpader-core/src/main/jni/breakpad/src/common/convert_UTF.c:354-422 | A strict step decodes one character and encodes it in UTF-16, or stops |
| `UtfStrict.Strict8to32` | breakpader-core/src/main/jni/breakpad/src/common/convert_UTF.c:478-535 | A strict step decodes one character of UTF-8 and gives its value, or stops |
| `UtfStrict.Strict16to8` | breakpader-core/src/main/jni/breakpad/src/common/convert_UTF.c:233-298 | A strict step decodes one character of UTF-16 and encodes it in UTF-8, or stops |
| `UtfStrict.Next16IsUnit` | breakpader-core/src/main/jni/breakpad/src/common/convert_UTF.c:138-166 | Strict conversion sees a character at the start of UTF-16 just where the syntax has one, and it is the one the reference decodes |
| `UtfTheorems.WellFormedIsLoose` | breakpader-core/src/main/jni/breakpad/src/common/convert_UTF.c:313-336 | Whole texts: well-formed iff a sequence of accepted characters without a short second byte after 0xED or 0xF4 |
| `UtfReference.Encode8Decode8` | breakpader-core/src/main/jni/breakpad/src/common/convert_UTF.c:207-216 | By section 3 of RFC 3629, encoding what a character decodes to gives its bytes |
| `UtfReference.Decode8Encode8` | breakpader-core/src/main/jni/breakpad/src/common/convert_UTF.c:207-216 | By section 3 of RFC 3629, the encoding of a scalar value decodes to it, whatever follows |
| `UtfReference.Encode16Decode16` | breakpader-core/src/main/jni/breakpad/src/common/convert_UTF.c:63-71 | By section 2 of RFC 2781, encoding what a character decodes to gives its units |
| `UtfReference.Decode16Encode16` | breakpader-core/src/main/jni/breakpad/src/common/convert_UTF.c:63-71 | By section 2 of RFC 2781, the encoding of a scalar value decodes to it, whatever follows |
| `ConversionRun.RunIsPrefixOfTotal` | breakpader-core/src/main/jni/breakpad/src/common/convert_UTF.h:60-64 | A bounded conversion that exhausts its target has converted a first part of the source, and the rest is what going on from there gives |
| `ConversionRun.SeriesIsTotal` | breakpader-core/src/main/jni/breakpad/src/common/convert_UTF.h:60-64 | A series of targets that suffices gives what an unbounded one would |
| `ConversionRun.ConsumedPrefix` | breakpader-core/src/main/jni/breakpad/src/common/convert_UTF.h:60-64 | What was written is the conversion of what was consumed |
| `StringConversion.SourceLengthSuffices` | breakpader-core/src/main/jni/breakpad/src/common/string_conversion.cc:41-56 | A target with one UTF-16 unit for each byte of UTF-8 is always enough, so the bounded conversion is the unbounded one |
| `StringConversion.UTF8ToUTF16Char` | breakpader-core/src/main/jni/breakpad/src/common/string_conversion.cc:58-83 | Trying ever longer beginnings finds the first character, its length and its units, and leaves the result empty if there is none |
| `CfiFrameInfos.CFIRuleParser.Parse` | breakpader-core/src/main/jni/breakpad/src/processor/cfi_frame_info.cc:126-163 | The loop over tokens does to the rules what the function on tokens does, also when it fails half way |
| `CfiFrameInfos.CFIRuleParser.Report` | breakpader-core/src/main/jni/breakpad/src/processor/cfi_frame_info.cc:165-184 | Passes on a rule that has a name and an expression, by its name |
| `CfiFrameInfos.CFIFrameInfo.Serialize` | breakpader-core/src/main/jni/breakpad/src/processor/cfi_frame_info.cc:104-124 | Writes the rules for .cfa and .ra, if any, and then those for registers in the order of their names |
| `CfiFrameInfos.CFIFrameInfo.SetRegisterRule` | breakpader-core/src/main/jni/breakpad/src/processor/cfi_frame_info.h:77-79 | Replaces or adds the rule of one register |
| `CfiFrameInfos.CFIFrameInfo.FindCallerRegs` | breakpader-core/src/main/jni/breakpad/src/processor/cfi_frame_info.cc:50-92 | Evaluates the rule for the frame address, then with it known those for the return address and all registers, and fails if one of the two is missing or one rule has no value |
| `PostfixEvaluators.PostfixEvaluator.EvaluateForValue` | breakpader-core/src/main/jni/breakpad/src/processor/postfix_evaluator-inl.h:252-269 | The value of an expression that leaves just one token on the stack, which is empty again afterwards |
| `PostfixEvaluators.PostfixEvaluator.EvaluateInternal` | breakpader-core/src/main/jni/breakpad/src/processor/postfix_evaluator-inl.h:204-230 | Takes one token after the other, separating an assignment from what sticks to it |
| `PostfixEvaluators.PostfixEvaluator.EvaluateToken` | breakpader-core/src/main/jni/breakpad/src/processor/postfix_evaluator-inl.h:69-200 | Does what one token says to the stack and the dictionary |
| `PostfixEvaluators.PostfixEvaluator.PopValueOrIdentifier` | breakpader-core/src/main/jni/breakpad/src/processor/postfix_evaluator-inl.h:271-312 | Takes a token off the stack, which is a number or else a name |
| `PostfixEvaluators.EvaluatesTree` | breakpader-core/src/main/jni/breakpad/src/processor/postfix_evaluator-inl.h:69-269 | For every expression the postfix text evaluates to the expression's value, over 32 or 64 bits, and fails iff that is undefined |
| `PostfixEvaluators.AssignmentSets` | breakpader-core/src/main/jni/breakpad/src/processor/postfix_evaluator-inl.h:167-194 | An assignment sets a variable that begins with a dollar sign to the value of an expression, and fails for others |
| `PostfixEvaluators.AlignRoundsDown` | breakpader-core/src/main/jni/breakpad/src/processor/postfix_evaluator-inl.h:129-132 | Alignment to a power of two rounds down to a multiple of it |
| `DecimalNumbers.ReadDecimalText` | breakpader-core/src/main/jni/breakpad/src/processor/postfix_evaluator-inl.h:352-357 | A number that was printed is read as itself |
| `CfiRules.AcceptedIffRuleSet` | breakpader-core/src/main/jni/breakpad/src/processor/cfi_frame_info.cc:126-171 | A text is accepted iff its tokens are one or more rules, each a name with a colon and then one or more words; then just those rules are put into force, in their order |
| `CfiFrameInfos.SerializeUndoesParse` | breakpader-core/src/main/jni/breakpad/src/processor/cfi_frame_info.cc:104-171 | For every accepted text, printing the rules and parsing the print into an empty set gives the same rules |
| `CfiFrameInfos.ParseUndoesSerialize` | breakpader-core/src/main/jni/breakpad/src/processor/cfi_frame_info.cc:104-171 | Printable rules are read again as they were; the print of no rules is rejected |
| `CfiFrameInfos.ParseInPieces` | breakpader-core/src/main/jni/breakpad/src/processor/cfi_frame_info.cc:126-163 | Parsing two accepted texts one after the other is parsing them joined by a space, unless the first holds a NUL, which cuts off the second |
| `CfiFrameInfos.ParseInPiecesNeedsText` | breakpader-core/src/main/jni/breakpad/src/processor/cfi_frame_info.cc:127-137 | Two accepted texts, the first with a NUL in it, for which parsing in pieces and parsing the joined text differ |
| `CfiFrameInfos.InPiecesExactly` | breakpader-core/src/main/jni/breakpad/src/processor/cfi_frame_info.cc:127-163 | Two accepted texts are read the same in pieces and joined iff the first has no NUL or the second changes nothing |
| `CText.TokensOfBoth` | breakpader-core/src/main/jni/breakpad/src/processor/cfi_frame_info.cc:137-161 | The tokens of two texts joined by a break are the tokens of both |
| `CText.TokensOfJoined` | breakpader-core/src/main/jni/breakpad/src/processor/cfi_frame_info.cc:157-159 | The tokens of words joined by spaces are the words |
| `SymbolFile.Module.WriteCFI` | breakpader-core/src/main/jni/breakpad/src/common/module.cc:293-318 | Writes a STACK CFI INIT record for each entry and STACK CFI records for its changes, with addresses relative to the load address |
| `SymbolFile.Module.Write` | breakpader-core/src/main/jni/breakpad/src/common/module.cc:234-322 | Writes the records asked for, in their order |
| `SymbolFile.Module.WriteHeader` | breakpader-core/src/main/jni/breakpad/src/common/module.cc:234-292 | Writes the MODULE, INFO, FILE, FUNC, line and PUBLIC records |
| `SymbolFile.Module.AssignSourceIds` | breakpader-core/src/main/jni/breakpad/src/common/module.cc:189-216 | Numbers the files cited in the order of their names |
| `SymbolFile.WriteRuleMap` | breakpader-core/src/main/jni/breakpad/src/common/module.cc:224-232 | Writes the rules of a map in the order of their names |
| `SymbolFile.WriteEntry` | breakpader-core/src/main/jni/breakpad/src/common/module.cc:298-318 | Writes one entry |
| `SourceLineResolver.Module.LoadMapFromMemory` | breakpader-core/src/main/jni/breakpad/src/processor/basic_source_line_resolver.cc:86-190 | Splits the buffer into lines and takes one after the other, giving up after too many errors |
| `SourceLineResolver.Module.EnterRecord` | breakpader-core/src/main/jni/breakpad/src/processor/basic_source_line_resolver.cc:130-182 | Takes one line by the word it starts with; an error is a record that does not parse, a public symbol stored twice, or a line without a function |
| `SourceLineResolver.Module.ParseStackInfo` | breakpader-core/src/main/jni/breakpad/src/processor/basic_source_line_resolver.cc:375-429 | Finds the platform of a STACK record, enters those for CFI and takes those for Windows that have their eleven fields and a known type |
| `SymbolParsing.Tokenize` | breakpader-core/src/main/jni/breakpad/src/processor/tokenize.cc:45-75 | Gives just the number of tokens asked for, the last of which is all that is left of the line, or fails |
| `SymbolParsing.ParseFile` | breakpader-core/src/main/jni/breakpad/src/processor/basic_source_line_resolver.cc:467-491 | Reads a FILE record |
| `SymbolParsing.ParseFunction` | breakpader-core/src/main/jni/breakpad/src/processor/basic_source_line_resolver.cc:494-526 | Reads a FUNC record |
| `SymbolParsing.ParseLine` | breakpader-core/src/main/jni/breakpad/src/processor/basic_source_line_resolver.cc:529-571 | Reads a line record |
| `SymbolParsing.ParsePublicSymbol` | breakpader-core/src/main/jni/breakpad/src/processor/basic_source_line_resolver.cc:574-602 | Reads a PUBLIC record |
| `SourceLineResolver.Module.ParseCFIFrameInfo` | breakpader-core/src/main/jni/breakpad/src/processor/basic_source_line_resolver.cc:431-464 | Enters an initial record as a range and a change at its address |
| `SourceLineResolver.Module.FindCFIFrameInfo` | breakpader-core/src/main/jni/breakpad/src/processor/basic_source_line_resolver.cc:280-312 | Parses the initial rules of the range that covers an address and then the changes from its base up to the address |
| `RangeMaps.RangeMap.StoreRange` | breakpader-core/src/main/jni/breakpad/src/processor/range_map-inl.h:60-160 | A range is stored iff it is neither empty nor wraps around and overlaps no stored range |
| `RangeMaps.RangeMap.RetrieveRange` | breakpader-core/src/main/jni/breakpad/src/processor/range_map-inl.h:164-191 | Finds the stored range that contains an address, if one does |
| `HexNumbers.ReadHexText` | breakpader-core/src/main/jni/breakpad/src/processor/basic_source_line_resolver.cc:451-452 | An address printed in hexadecimal is read back as itself |
| `CfiRecords.EnterInitLine` | breakpader-core/src/main/jni/breakpad/src/processor/basic_source_line_resolver.cc:431-455 | The line written for an entry puts its range, relative to the load address, and the text of its rules into the tables |
| `CfiRecords.EnterDeltaLine` | breakpader-core/src/main/jni/breakpad/src/processor/basic_source_line_resolver.cc:457-463 | The line written for a change puts the text of its rules into the tables at its address |
| `CfiRecords.LinesOfText` | breakpader-core/src/main/jni/breakpad/src/common/module.cc:306-317 | The text written is split into the lines it was made of |
| `CfiRecords.ReadMapText` | breakpader-core/src/main/jni/breakpad/src/common/module.cc:224-232 | Reading the text of a rule map puts its rules into force and leaves the others |
| `CfiTranslation.LoadText` | breakpader-core/src/main/jni/breakpad/src/processor/basic_source_line_resolver.cc:86-190 | Loading a symbol file enters each of its entries, whatever other lines there are, as long as not too many are wrong |
| `CfiTranslation.TranslationKeepsMeaning` | breakpader-core/src/main/jni/breakpad/src/common/module.h:144-160 | For any entries that do not overlap and any symbol file with their records: rules are found at an address iff an entry covers it that does not reach across the load address, and they are the initial rules overlaid by all changes up to and including that address |
| `CfiTranslation.StraddlingEntryIsLost` | breakpader-core/src/main/jni/breakpad/src/common/module.cc:299-301 | Whatever other entries there are, nothing is found at the addresses of an entry that reaches across the load address |
| `SymbolHeaders.FindThroughSymbolFile` | breakpader-core/src/main/jni/breakpad/src/processor/basic_source_line_resolver.cc:280-312 | The writer, the loader and the lookup, one after the other, give these rules for a module with any files, functions, lines and public symbols |
| `SymbolHeaders.WrittenIsFile` | breakpader-core/src/main/jni/breakpad/src/common/module.cc:234-318 | What is written for a module is a symbol file with its entries |
| `SymbolHeaders.HeaderPasses` | breakpader-core/src/main/jni/breakpad/src/common/module.cc:234-292 | The loader finds no error in the records that are written before call frame information, however many there are |
| `SymbolHeaders.EnterFileLine` | breakpader-core/src/main/jni/breakpad/src/common/module.cc:251-258 | A FILE record is read with its number and its name |
| `SymbolHeaders.EnterFunctionLine` | breakpader-core/src/main/jni/breakpad/src/common/module.cc:262-272 | A FUNC record is read with the function's relative address, its sizes and its name, and lines may follow it |
| `SymbolHeaders.EnterLineLine` | breakpader-core/src/main/jni/breakpad/src/common/module.cc:274-284 | A line record is read with its relative address, its size, its number and the number of its file |
| `SymbolHeaders.EnterExternLine` | breakpader-core/src/main/jni/breakpad/src/common/module.cc:286-291 | A PUBLIC record is read with its relative address and its name |
| `SymbolLines.OtherLinesDoNotMatter` | breakpader-core/src/main/jni/breakpad/src/processor/basic_source_line_resolver.cc:130-187 | Lines that do not start with STACK may be put in or taken out anywhere, any number of them, without changing the tables, as long as there are not too many errors |
| `SymbolLines.LinesRead` | breakpader-core/src/main/jni/breakpad/src/processor/basic_source_line_resolver.cc:183-186 | The loader reads all lines up to the one with which there are more than a hundred errors |
| `CfiTranslation.RelativeWrap` | breakpader-core/src/main/jni/breakpad/src/common/module.cc:299-301 | The range of an entry that is empty or reaches across the load address has no place in the table: relative to the load address it is empty or wraps around |
| `CfiTranslation.ChangedRules` | breakpader-core/src/main/jni/breakpad/src/processor/basic_source_line_resolver.cc:301-309 | Applying the changes of the table in their order leaves the last one for each name in force |
| `CfiTranslation.RelativeRange` | breakpader-core/src/main/jni/breakpad/src/common/module.cc:299-301 | Relative to the load address an entry is still one range with its addresses in order, unless it reaches across it |
| `CfiTranslation.RelativeApart` | breakpader-core/src/main/jni/breakpad/src/common/module.cc:299-301 | Entries that do not overlap do not overlap relative to the load address |
| `DwarfCfi.DwarfCFIToModule.Entry` | breakpader-core/src/main/jni/breakpad/src/common/dwarf_cfi_to_module.cc:145-170 | Starts an entry, with a rule that names the return address register if that has a name in the table |
| `DwarfCfi.DwarfCFIToModule.Name` | breakpader-core/src/main/jni/breakpad/src/common/dwarf_cfi_to_module.cc:172-190 | The name of a register: .cfa, .ra, that in the table, or a made-up one |
| `DwarfCfi.DwarfCFIToModule.Record` | breakpader-core/src/main/jni/breakpad/src/common/dwarf_cfi_to_module.cc:192-210 | Puts a rule among the initial rules or the changes of its address |
| `DwarfCfi.DwarfCFIToModule.Report` | breakpader-core/src/main/jni/breakpad/src/common/dwarf_cfi_to_module.cc:212-261 | Each kind of rule is recorded as the words that express it; undefined and expression rules record nothing |
| `DwarfCfi.DwarfCFIToModule.End` | breakpader-core/src/main/jni/breakpad/src/common/dwarf_cfi_to_module.cc:263-267 | Adds the entry to the module |
| `DwarfCfi.LastRecordIsInForce` | breakpader-core/src/main/jni/breakpad/src/common/dwarf_cfi_to_module.cc:145-261 | For any calls at or behind the start of the entry, the rule in force for each name at each address is the last recorded at the greatest address up to there, and the default .ra rule when none was |
| `DwarfCfi.SlotAfterAll` | breakpader-core/src/main/jni/breakpad/src/common/dwarf_cfi_to_module.cc:192-210 | What the entry holds for a name at an address is what was recorded there last, or what it started with |
| `DwarfToRules.DwarfRulesAreFound` | breakpader-core/src/main/jni/breakpad/src/common/dwarf_cfi_to_module.cc:145-267 | From the parser's calls through any symbol file to the stack walker: at each address covered by a description that does not reach across the load address the rule found for each name is the one recorded last at the greatest address up to there, and at no other address are rules found |
| `DwarfToRules.EntryIsLoadable` | breakpader-core/src/main/jni/breakpad/src/common/dwarf_cfi_to_module.cc:145-267 | What the calls for one description build can be written and loaded |
| `CallerRegisters.RuleIsMeant` | breakpader-core/src/main/jni/breakpad/src/common/dwarf_cfi_to_module.cc:212-261 | For every rule recorded: evaluating its text gives what section 6.4.1 of DWARF version 4 defines, memory at the base plus the offset, the base plus the offset, the value of another register or its own; or nothing exactly where the rule cites the return address column or its offset is wider than a register |
| `CallerRegisters.RulesRecover` | breakpader-core/src/main/jni/breakpad/src/processor/cfi_frame_info.cc:50-92 | The registers recovered are just those with a rule in force, each with the value of its rule, and recovery fails iff the frame address or the return address has no rule or one rule has no value |
| `CallerRegisters.CallerIsRecovered` | breakpader-core/src/main/jni/breakpad/src/processor/cfi_frame_info.cc:50-92 | From the parser's calls through any symbol file to the registers of the caller |
| `CallerRegisters.WalkThroughSymbolFile` | breakpader-core/src/main/jni/breakpad/src/processor/cfi_frame_info.cc:50-92 | Collecting, writing, loading, looking up and evaluating, one after the other, recover these registers |
| `ByteCursors.ByteCursor.Read` | breakpader-core/src/main/jni/breakpad/src/common/byte_cursor.h:113-141 | Reads a number in either byte order with its sign extended on demand, or moves to the end and marks the cursor as incomplete |
| `ByteCursors.ByteCursor.Accumulate` | breakpader-core/src/main/jni/breakpad/src/common/byte_cursor.h:121-130 | Both loops over the bytes give the number that the bytes stand for |
| `ByteCursors.ByteCursor.CheckAvailable` | breakpader-core/src/main/jni/breakpad/src/common/byte_cursor.h:239-247 | Without enough bytes the cursor is at the end and incomplete from then on |
| `ByteCursors.ByFlipping` | breakpader-core/src/main/jni/breakpad/src/common/byte_cursor.h:131-134 | Flipping the sign bit and subtracting it extends the sign |
| `ByteCursors.ExtendedKeepsSign` | breakpader-core/src/main/jni/breakpad/src/common/byte_cursor.h:131-134 | The extended bit pattern has the signed meaning of the one read |
| `ByteCursors.BigIsLittleReversed` | breakpader-core/src/main/jni/breakpad/src/common/byte_cursor.h:121-130 | The two byte orders mirror each other |
| `StabsReaders.EntryIterator.Fetch` | breakpader-core/src/main/jni/breakpad/src/common/stabs_reader.cc:58-66 | The iterator is at the end iff no whole entry is left, else it holds the next entry |
| `StabsReaders.StabsReader.Process` | breakpader-core/src/main/jni/breakpad/src/common/stabs_reader.cc:93-129 | For every section and every handler the calls made are those that the entries call for, or a beginning of them up to the first that the handler refuses; every entry is consumed; the calls are properly nested |
| `StabsReaders.StabsReader.ProcessCompilationUnit` | breakpader-core/src/main/jni/breakpad/src/common/stabs_reader.cc:131-219 | The calls for one unit are made, and the entries that end it are consumed or left for the next unit |
| `StabsReaders.StabsReader.ProcessFunction` | breakpader-core/src/main/jni/breakpad/src/common/stabs_reader.cc:221-298 | The calls for one function with its lines are made, and an entry that starts the next function or unit is left for it |
| `StabsReaders.StabsReader.ReportQueuedLines` | breakpader-core/src/main/jni/breakpad/src/common/stabs_reader.cc:237-243 | Lines met before the function are reported in it, in their order |
| `StabsReaders.StabsReader.SymbolString` | breakpader-core/src/main/jni/breakpad/src/common/stabs_reader.cc:81-91 | The name of an entry; a negative or too large offset means the first string |
| `StabsStream.CallsFollowProtocol` | breakpader-core/src/main/jni/breakpad/src/common/stabs_reader.cc:93-298 | The calls for any section are properly nested and close all that they open |
| `StabsStream.StepFollowsProtocol` | breakpader-core/src/main/jni/breakpad/src/common/stabs_reader.cc:93-298 | The calls for one entry lead from the place before it to the place behind it |
| `StabsStream.BeginningFollowsProtocol` | breakpader-core/src/main/jni/breakpad/src/common/stabs_reader.cc:93-298 | Where a handler stops the reader, the calls so far are properly nested |
| `StabsStream.SymbolIsAtOffset` | breakpader-core/src/main/jni/breakpad/src/common/stabs_reader.cc:81-91 | The string of an entry is the one at its offset behind the start of its unit's strings |
| `StabsStream.SymbolElsewhere` | breakpader-core/src/main/jni/breakpad/src/common/stabs_reader.cc:81-91 | An offset that is negative or behind the end means the first string |
| `StabsBytes.EntriesOfBytes` | breakpader-core/src/main/jni/breakpad/src/common/stabs_reader.cc:58-66 | Entries whose fields are put one behind the other as bytes, in either byte order, are read as they were |
| `StabsBytes.BytesOfEntries` | breakpader-core/src/main/jni/breakpad/src/common/stabs_reader.cc:58-66 | Every section starts with the bytes of the entries read from it |
| `StabsGrammar.CallsOfStructure` | breakpader-core/src/main/jni/breakpad/src/common/stabs_reader.cc:93-298 | The calls for a section of units, functions and lines are those of its structure: names up to the first colon, lines at offsets from their function or at their addresses before it, under the file named last, and ends where the source finds them |
| `StabsGrammar.EverySectionHasStructure` | breakpader-core/src/main/jni/breakpad/src/common/stabs_reader.cc:93-298 | Every section has such a structure |
| `StabsGrammar.StartsAreNamed` | breakpader-core/src/main/jni/breakpad/src/common/stabs_reader.cc:224-235 | Every call that starts a function carries the part of its entry's string before the first colon, or all of it |
| `StabsToModules.StabsToModule.Receive` | breakpader-core/src/main/jni/breakpad/src/common/stabs_to_module.cc:68-131 | For any properly nested calls the assertions of all handler functions hold, and what they collect is what the calls say |
| `StabsToModules.StabsToModule.StartCompilationUnit` | breakpader-core/src/main/jni/breakpad/src/common/stabs_to_module.cc:68-77 | Starts a unit whose start is a boundary |
| `StabsToModules.StabsToModule.EndCompilationUnit` | breakpader-core/src/main/jni/breakpad/src/common/stabs_to_module.cc:79-88 | Ends the unit; its end is a boundary unless it is zero |
| `StabsToModules.StabsToModule.StartFunction` | breakpader-core/src/main/jni/breakpad/src/common/stabs_to_module.cc:90-99 | Starts a function whose start is a boundary |
| `StabsToModules.StabsToModule.EndFunction` | breakpader-core/src/main/jni/breakpad/src/common/stabs_to_module.cc:101-115 | Keeps the function unless it begins below its unit; its end is a boundary unless it is zero |
| `StabsToModules.StabsToModule.AddLine` | breakpader-core/src/main/jni/breakpad/src/common/stabs_to_module.cc:117-131 | Adds a line to the current function |
| `StabsToModules.CollectFunction` | breakpader-core/src/main/jni/breakpad/src/common/stabs_to_module.cc:90-131 | A function with its lines is collected as one, unless it begins below the start of its unit |
| `StabsToModules.StabsToModule.Finalize` | breakpader-core/src/main/jni/breakpad/src/common/stabs_to_module.cc:155-195 | Hands the functions to the module in order of address, each with its size and with its lines sorted and sized; the sizes are positive, functions at different addresses do not overlap, and those with no boundary behind them, which have the fallback size, are at one address |
| `StabsToModules.SizesAreSound` | breakpader-core/src/main/jni/breakpad/src/common/stabs_to_module.cc:162-177 | Functions get positive sizes, those at different addresses do not overlap, the fallback size is used for at most one address, and a function ends inside the address space iff it has a boundary behind it or begins low enough for the fallback size |
| `StabsToModules.LineSizesAreSound` | breakpader-core/src/main/jni/breakpad/src/common/stabs_to_module.cc:180-189 | The lines of a function are its lines sorted, and their sizes add up to its end less its first line, plus one round of the address space iff the last line begins behind the end |
| `StabsToModules.SizesAddUp` | breakpader-core/src/main/jni/breakpad/src/common/stabs_to_module.cc:183-188 | The sizes of sorted lines add up to the end less the first line, plus one round of the address space iff the last line begins behind the end |
| `StabsToModules.SortLinesIsStable` | breakpader-core/src/main/jni/breakpad/src/common/stabs_to_module.cc:181-182 | Lines at the same address stay in their order |
| `StabsLoaders.LoadStabs` | breakpader-core/src/main/jni/breakpad/src/common/linux/dump_symbols.cc:193-216 | For every section of bytes and every string section: reading succeeds, no assertion of the handler fails, and the module has just the functions that the section's calls describe, sorted, finished and with sound sizes |
| `StabsLoaders.CollectedFromStructure` | breakpader-core/src/main/jni/breakpad/src/common/stabs_to_module.cc:68-131 | What is collected from the bytes of a section are the functions of its structure with their lines, but for those below the start of their unit, and all the addresses where something begins or ends |
| `StabsLoaders.CollectedFromAny` | breakpader-core/src/main/jni/breakpad/src/common/stabs_to_module.cc:68-131 | And so for every section |
| `PageAllocators.PageAllocator.Alloc` | breakpader-core/src/main/jni/breakpad/src/common/memory_allocator.h:74-101 | Every block handed out lies in a mapped run behind its header and overlaps no other block; a request that fits behind the newest block in the newest run is put right there without asking the kernel, and any other gets a run of its own or null |
| `PageAllocators.PageAllocator.TakeFromPage` | breakpader-core/src/main/jni/breakpad/src/common/memory_allocator.h:78-87 | The block begins where the newest one ends |
| `PageAllocators.PageAllocator.TakeFromRun` | breakpader-core/src/main/jni/breakpad/src/common/memory_allocator.h:89-100 | A new run holds the block behind its header, and what is left of its last page becomes the current page |
| `PageAllocators.PageAllocator.GetNPages` | breakpader-core/src/main/jni/breakpad/src/common/memory_allocator.h:118-138 | A run granted by the kernel is linked before the others and counted |
| `PageAllocators.PageAllocator.OwnsPointer` | breakpader-core/src/main/jni/breakpad/src/common/memory_allocator.h:105-113 | An address is owned iff it lies in a run |
| `PageAllocators.BlocksAreUsable` | breakpader-core/src/main/jni/breakpad/src/common/memory_allocator.h:74-113 | Each address of a block is owned, lies in no header, and in no other block |
| `PageAllocators.PagesAreEnough` | breakpader-core/src/main/jni/breakpad/src/common/memory_allocator.h:89-90 | The pages asked for hold the block and the header iff the sum of the sizes does not overflow, and then no page is too much |
| `PageAllocators.PagesAreReused` | breakpader-core/src/main/jni/breakpad/src/common/memory_allocator.h:74-101 | Over any series of requests the number of pages is the sum over just the requests that did not fit behind the block before them |
| `PageAllocators.SmallRequestsShareAPage` | breakpader-core/src/main/jni/breakpad/src/common/memory_allocator_unittest.cc:81-95 | Requests that fit into a page together take one page |
| `PageAllocators.OffsetIsEnd` | breakpader-core/src/main/jni/breakpad/src/common/memory_allocator.h:95-98 | The offset in the last page is where the block ends |
| `StringDictionaries.SimpleStringDictionary.SetKeyValue` | breakpader-core/src/main/jni/breakpad/src/common/simple_string_dictionary.h:161-208 | Changes or adds a key, and does nothing if it is new and all slots are used; the value is cut off to fit |
| `StringDictionaries.KeyAppearsOnce` | breakpader-core/src/main/jni/breakpad/src/common/simple_string_dictionary.h:182-205 | The sanity check that a key just set is in exactly one slot holds iff the key fits into a slot; a longer one is in none, so it is not found again |
| `StringDictionaries.SimpleStringDictionary.RemoveKey` | breakpader-core/src/main/jni/breakpad/src/common/simple_string_dictionary.h:212-228 | Removes just that key; the empty key stands for a free slot |
| `StringDictionaries.SimpleStringDictionary.GetValueForKey` | breakpader-core/src/main/jni/breakpad/src/common/simple_string_dictionary.h:145-155 | Finds the value of a key iff the dictionary has one |
| `StringDictionaries.SimpleStringDictionary.GetCount` | breakpader-core/src/main/jni/breakpad/src/common/simple_string_dictionary.h:133-141 | The number of active slots is the number of keys |
| `StringDictionaries.HeldCount` | breakpader-core/src/main/jni/breakpad/src/common/simple_string_dictionary.h:133-141 | There are as many keys as active slots |
| `LongStringDictionaries.LongStringDictionary.SetKeyValue` | breakpader-core/src/main/jni/breakpad/src/common/long_string_dictionary.cc:53-106 | Removes what the key had and then stores the value, in segments if it is too long for a slot |
| `LongStringDictionaries.LongStringDictionary.RemoveKey` | breakpader-core/src/main/jni/breakpad/src/common/long_string_dictionary.cc:108-131 | Removes the plain value or the segments up to the first that is missing |
| `LongStringDictionaries.LongStringDictionary.GetValueForKey` | breakpader-core/src/main/jni/breakpad/src/common/long_string_dictionary.cc:133-173 | The plain value or the segments up to the first that is missing |
| `LongStringDictionaries.SetThenGet` | breakpader-core/src/main/jni/breakpad/src/common/long_string_dictionary.cc:53-173 | After a value is set the key has it, cut off where ten segments or the free slots end; its segments are the first few and never beside a plain value; nothing else changes |
| `LongStringDictionaries.RemoveRemoves` | breakpader-core/src/main/jni/breakpad/src/common/long_string_dictionary.cc:108-131 | After a key is removed nothing of it is left and everything else is; removing succeeds iff something was there |
| `LongStringDictionaries.RunKeeps` | breakpader-core/src/main/jni/breakpad/src/common/long_string_dictionary.cc:53-173 | In every run over keys that do not clash the invariant of each key holds, and a key that is not used keeps its value |
| `LongStringDictionaries.LastValueIsFound` | breakpader-core/src/main/jni/breakpad/src/common/long_string_dictionary.cc:53-173 | After any run a key has the value it was given last, as far as that found room, and the empty value if it was removed last |
| `LongStringDictionaries.PutThenGet` | breakpader-core/src/main/jni/breakpad/src/common/long_string_dictionary.cc:83-105 | What is stored in segments is found again, as far as there were slots |
| `LongStringDictionaries.FamiliesAreApart` | breakpader-core/src/main/jni/breakpad/src/common/long_string_dictionary.h:51-52 | Keys neither of which is a segment key of the other have no stored key in common |
| `MD5.MD5Transform` | breakpader-core/src/main/jni/breakpad/src/common/md5.cc:167-248 | The 64 unrolled steps are those of section 3.4 of RFC 1321, with its functions, word order, shifts and table |
| `MD5Words.SameF1` | breakpader-core/src/main/jni/breakpad/src/common/md5.cc:150-153 | The optimized first function is the one in section 3.4 of RFC 1321 |
| `MD5Words.SameF2` | breakpader-core/src/main/jni/breakpad/src/common/md5.cc:154 | The second function, by way of the first, is the one in section 3.4 of RFC 1321 |
| `MD5.MD5Context.Update` | breakpader-core/src/main/jni/breakpad/src/common/md5.cc:61-103 | After any updates the chaining value, the bytes kept and the length are those of all the bytes so far, however they were divided |
| `MD5.MD5Context.AddBytes` | breakpader-core/src/main/jni/breakpad/src/common/md5.cc:72-102 | Fills the block, transforms by each whole block, and keeps the rest |
| `MD5.MD5Context.constructor` | breakpader-core/src/main/jni/breakpad/src/common/md5.cc:46-55 | Starts with the empty message |
| `MD5.BitsMore` | breakpader-core/src/main/jni/breakpad/src/common/md5.cc:67-70 | The two words of the length, with the carry found by comparing, are eight times the number of bytes modulo 2^64 |
| `MD5.UsedBytes` | breakpader-core/src/main/jni/breakpad/src/common/md5.cc:72 | The low word of the length gives the number of bytes kept |
| `MD5.ChainOfBlock` | breakpader-core/src/main/jni/breakpad/src/common/md5.cc:92-98 | A whole block more transforms the chaining value once |
| `MD5.WordHasBytes` | breakpader-core/src/main/jni/breakpad/src/common/md5.cc:20-36 | Each word of a block has its four bytes, the low-order byte first, as section 2 of RFC 1321 has it |
| `MD5.StartHasBytes` | breakpader-core/src/main/jni/breakpad/src/common/md5.cc:46-51 | The chaining value starts with the bytes of section 3.3 of RFC 1321 |
| `MD5Finals.MD5Final` | breakpader-core/src/main/jni/breakpad/src/common/md5.cc:109-147 | Pads the message, writes the two words of the length at the bytes 14 and 15, and transforms |
| `MD5Finals.StandardChain` | breakpader-core/src/main/jni/breakpad/src/common/md5.cc:105-108 | With the padding and the length of sections 3.1 and 3.2 of RFC 1321 the chaining value is that of the padded message |
| `MD5Finals.EndingIsStandard` | breakpader-core/src/main/jni/breakpad/src/common/md5.cc:130-143 | Exactly when the program transforms in the end what the standard does |
| `MD5Finals.OnlyNothingIsStandard` | breakpader-core/src/main/jni/breakpad/src/common/md5.cc:130-143 | In a buffer of zeros, of the messages shorter than 56 bytes only the empty one is ended as the standard has it |
| `MD5Finals.FourBytesAreWord` | breakpader-core/src/main/jni/breakpad/src/common/md5.cc:141-142 | The bytes of a word of the length, the low-order byte first |

## Left out

- RangeMaps.RangeMap.StoreRange: without the option to shrink ranges down, which call frame information never turns on.
- SourceLineResolver.Module.LoadMapFromMemory: of the tables for functions, lines and public symbols only the addresses of the latter are kept, which decide about errors.
- SourceLineResolver.Module.ParseStackInfo: a record that ends right behind its platform has no fields here; the program would go on reading behind the end of the line. What Windows records say is not kept.
- HexNumbers.StrToUL: an unsigned long has 64 bits.
- CfiTranslation.TranslationKeepsMeaning: for entries with non-empty maps; an empty map is written as a record without rules, which loading counts as an error.
- SymbolFile.Module.Write: how functions and public symbols get into the module and are put in order is left out, and so are failures of the stream.
- PostfixEvaluators.PostfixEvaluator.EvaluateToken: a division by zero fails here; the program does not check. Numbers may have a sign behind the minus, as newer libraries read them.
- CfiFrameInfos.CFIFrameInfo.FindCallerRegs: memory is a map from addresses to values; what is left of the registers on failure does not matter.
- DwarfCfi.DwarfCFIToModule.Record: strings are values, so the table that lets rules share their text is left out, and so are the warnings.
- ContainedRanges.ContainedRangeMap.StoreRange: a node without a map of children and a node with an empty one are the same.
- LineSweep.AssignLinesToFunctions: the vectors come sorted; how they are sorted and what the warnings say is left out. For overlapping functions or lines only the assertions and termination are claimed.
- LineCollection.FinishFunction: a function without a range that is inlined elsewhere is kept by the program as an origin for names; names are not followed here.
- LineCollection.Collector.DefineFile: the name comes with its directory already put before it.
- UtfConverters.ConvertUTF32toUTF8: a UTF-32 unit has 32 bits.
- StringConversion.UTF8ToUTF16Char: UTF8ToUTF16 itself, its other callers and the conversions between UTF-16 and the wide characters of the platform are left out.
- StabsReaders.StabsReader.Process: warnings and the symbols that only the Mach-O format exports are left out; a string section ends its last string even without a NUL.
- StabsToModules.StabsToModule.AddLine: a file is its name.
- StabsToModules.StabsToModule.StartFunction: names are not demangled.
- StabsToModules.SizesAreSound: ranges of functions are taken as integers; the last clause says when one passes the end of the address space, where 64-bit arithmetic would go on at zero.
- StabsLoaders.LoadStabs: finding the sections in an ELF file is left out; so are the warnings.
- StabsToModules.StabsToModule.Finalize: sorting is any sorted permutation for functions and stable for lines; what the module does with duplicates is left out.
- PageAllocators.PageAllocator.TakeFromRun: as for Alloc, nothing is claimed for sizes whose sum with the header and a page overflows.
- PageAllocators.PageAllocator.Alloc: what the kernel maps is a parameter; for sizes whose sum with the header and a page overflows nothing is claimed. Freeing is left out.
- StringDictionaries.SimpleStringDictionary.SetKeyValue: keys are shorter than a slot, as the sanity check demands; what becomes of a longer one is stated for the slots alone, in KeyAppearsOnce.
- LongStringDictionaries.LongStringDictionary.SetKeyValue: keys leave room for a suffix, as the program asserts.
- MD5Finals.MD5Final: words have the byte order of a little-endian machine; on others the program reverses bytes, which does the same for words.
- The Java and JNI layers, the minidump writer, stack walking with other records and the DWARF reader itself.
- `std::map`, `std::set`, `std::sort`, `std::upper_bound`, `strtok_r` and `strtoul` are modelled as they are specified.
