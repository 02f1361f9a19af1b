# Models and proofs for the core-file parser

The parser opens a process core file, rebuilds the address space of the process from it, reads
DWARF type information, demangles symbol names and walks the data structures of the Android
runtime. This project models the parts of it whose correctness is hardest to see and proves what
they promise, for all inputs and over all runs.

| files | part |
|---|---|
| `RustLexer`, `RustNumbers`, `RustGrammar`, `RustDemangler`, `RustDryRun`, `RustRoundTrip`, `RustRoundTripProof`, `RustDepth`, `RustDisplay`, `RustRefusals`, `Punycode` | the demangler for Rust v0 symbols (RFC 2603), with Punycode (RFC 3492) and UTF-8 (RFC 3629) |
| `Leb128`, `DwarfAttributes`, `DwarfForms`, `DwarfAbbrevs`, `DwarfDies`, `DwarfTypes`, `DwarfMeaning`, `DwarfUnits`, `DwarfProducer`, `DwarfSections`, `DwarfStrings`, `DwarfNames`, `DwarfLoader` | the DWARF type loader |
| `LoadBlocks`, `AddressSpace`, `CoreMemory`, `MemoryRefs` | the address space of a core file: layered blocks, their index, fake blocks, cached pointers |
| `Bits`, `BitRegion`, `BitTable` | ART's bit-packed tables |
| `Handshake` | the command handshake between the UI thread and the main thread |
| `PropArea` | the Android property area |
| `BumpAllocator`, `Crc` | the Itanium demangler's arena; the checksums |

`dafny verify dfyconfig.toml` checks everything.

## How the models are built

Code that updates fields or runs loops is a class or a method with the same steps, proved against
a function; what the program promises is proved about the function. The demangler's mutually
recursive methods are the class `RustDemangler.Demangler`, each equal to a function of
`RustGrammar` on the values of its fields. The DWARF loader is the class `DwarfLoader.DwarfLoader`,
the address space `CoreMemory.CoreApi` with `LoadBlocks.LoadBlock` and `MemoryRefs.MemoryRef`, the
bit readers `BitTable.BitMemoryReader` and `BitTable.BitTable`, the arena
`BumpAllocator.BumpPointerAllocator`. The two threads of the handshake are a transition system over
the program points of their loops, with every interleaving and spurious wakeups.

What a producer writes, what is displayed and what a standard says is written down separately, with
its own texts, numbers and orders, and compared with what the program does: the letters and names of
Rust's basic types, the parameters of Punycode, the forms, tags and attributes of DWARF, the spelling
of types, the layout of a property node, the order of property names, the generators of the checksums.

What the program gets from outside is a parameter: addresses returned by `malloc` and the mapping
calls (or their failure), the contents of mapped files, the commands the user types, the order in
which threads run. Dumped memory is a total map from addresses to bytes. C++ exceptions and null
results are `Option` or outcome values.

## Where the code does something unexpected

Each of these is stated by the named members: one gives the exact condition, one an input.

- An explicit address for a fake block at or above the last block is inserted *before* that block,
  and one right below it is not checked against it: `AddressSpace.BehindLastLosesOrder`,
  `AddressSpace.BeforeLastOverlaps`; `AddressSpace.ExplicitFits` says exactly when order is kept.
- A size for a fake block above 2^64 - 2^12 is rounded to nothing and refused, and an address above it
  is taken for none: `AddressSpace.RoundsUp`, with the input of `AddressSpace.LargestRoundsToNothing`.
- Automatic placement of a fake block is refused whenever some block contains address 0, however
  much room there is, and a size of 2^64 - 2^20 or more can seem to fit at the low address:
  `AddressSpace.AutomaticIsFirstFit`, with the inputs of `AddressSpace.ZeroBlockRefusesAll` and
  `AddressSpace.WrappedSizeIsPlaced`.
- A read through an address with tag bits, or behind the last byte a segment has in the file,
  computes a length that wraps around: `CoreMemory.ReadExact`, `CoreMemory.ReadAll`, with the inputs
  of `CoreMemory.TaggedReadOverruns` and `CoreMemory.ReadBehindFile`.
- A read through some layers takes its length from all layers, so the first write into a segment
  that is longer in memory than in the file changes what a read of the file's bytes does:
  `CoreMemory.LowerReadsKept`, with the input of `CoreMemory.WriteBreaksOriginRead`.
- A segment longer in memory than in the file has addresses that translate to a real address but
  not back: `CoreMemory.TranslationRoundTrip`, with the input of `CoreMemory.TranslatedOneWay`.
- Unmapping a file does not undo mapping it if the block has an overlay:
  `LoadBlocks.UnmapKeepsFileInOverlay`, with the input of `LoadBlocks.UnmapLeavesFile`.
- A pointer with address 0 is never looked up, even if a block contains address 0:
  `MemoryRefs.MemoryRef.Real`, for the block of `CoreMemory.ZeroIsTranslated`.
- The arena rounds requests with a 32-bit mask, so requests of 2^32 - 15 bytes or more get too
  little memory: `BumpAllocator.RoundedEnough`, with the input of
  `BumpAllocator.LargeRequestGetsNothing`.
- The checksum of a mapping covers its length modulo 2^32 only: `Crc.MappingChangesDetected`, with
  the inputs of `Crc.LongMappingUncovered`.
- Traversal of the property area visits properties that lookup cannot find if the root node has
  some of its own: `PropArea.TraversalIsLookup`, with the input of `PropArea.RootPropertyUnseen`.
- LEB128 numbers padded beyond ten bytes leave the cursor after ten of them, although the value is
  right: `Leb128.PaddedUnsigned`, `Leb128.PaddedSigned`, with the input of
  `Leb128.ElevenBytesLeaveOne`.
- The names of associated types in a trait object (`dyn Trait<Name = T>`) are printed without
  decoding Punycode (3rd-party/llvm-demangle/RustDemangle.cpp:688), unlike all other names:
  `RustDisplay.DemangleExact`, with the symbol of `RustDisplay.PunycodeBindingUndecoded`.
- A symbol nested more than 500 levels deep is refused although it is well formed; backreferences
  that are not printed count one level: `RustDepth.BudgetDecides`, with the symbols of
  `RustDepth.TowerLimit`.
- A Punycode name whose only delimiter comes first loses it instead of being refused, and capital
  letters are no digits: `Punycode.ProgramVersusStandard`, with the inputs of
  `Punycode.ProgramDiffers`.
- The loader takes every type reference for an offset in the section, also a type signature and an
  offset in a supplementary file, and takes a relative one behind an indirect form for an absolute
  one: `DwarfProducer.ReferenceExact`, with the inputs of `DwarfProducer.SignatureTakenForOffset` and
  `DwarfProducer.IndirectTakenForAbsolute`.
- Values of some forms (data16, addrx and its sized kinds, line_strp, strp_sup, loclistx, rnglistx)
  are passed over, so that a name in `.debug_line_str` is lost: `DwarfForms.SkippedForms`.
- `ref_addr` in version 2 of DWARF has the size of an address, and the loader reads an offset:
  `DwarfForms.AddressSizedReference`.
- A table of the older format without rows keeps the column offsets that the object had before
  (android/art/base/bit_table.cpp:38-51): `BitTable.StaleOffsets`, with the input of
  `BitTable.StaleWidths`.
- Chains of more than eight type qualifiers lose the name they end in: `DwarfTypes.ResolveSpells`,
  `DwarfNames.ResolvesType`, with the input of `DwarfTypes.NinePointersLoseName`.
- Rvalue references are spelled like pointers (core/api/dwarf.cpp:887): `DwarfNames.ResolvesType`.
- An entry whose last value takes no bytes is a parse error if it ends with the unit
  (core/api/dwarf.cpp:188): `DwarfProducer.AttrsRoundTrip`, `DwarfProducer.ItemRoundTrip`,
  `DwarfProducer.SourceSpelled`, and for flags `DwarfProducer.FlagAtEndIsRefused`.
- Only namespaces extend the name prefix, not enclosing structs (core/api/dwarf.cpp:602-605):
  `DwarfMeaning.TreeDecls`.

## Model

| member | source | states |
|---|---|---|
| RustGrammar.Path | 3rd-party/llvm-demangle/RustDemangle.cpp:241-342 | a path parse ends on every input (the measure is the remaining recursion budget, then the remaining text), consumes something if it succeeds, never moves past the end, never clears an error, restores budget, binder depth and print mode, and writes nothing while printing is off |
| RustGrammar.ImplPath | 3rd-party/llvm-demangle/RustDemangle.cpp:346-350 | the same frame for the skipped path of an impl, whether or not anything was printed before |
| RustGrammar.GenericArg | 3rd-party/llvm-demangle/RustDemangle.cpp:356-363 | the same for a generic argument |
| RustGrammar.Type | 3rd-party/llvm-demangle/RustDemangle.cpp:536-618 | the same for a type, including the backreferences that jump back in the text |
| RustGrammar.FnSig | 3rd-party/llvm-demangle/RustDemangle.cpp:623-662 | the same for a function signature; the lifetimes it bound are gone afterwards |
| RustGrammar.DynBounds | 3rd-party/llvm-demangle/RustDemangle.cpp:665-674 | the same for dyn bounds; the lifetimes they bound are gone afterwards |
| RustGrammar.Const | 3rd-party/llvm-demangle/RustDemangle.cpp:725-768 | the same for a constant |
| RustGrammar.Demangle | 3rd-party/llvm-demangle/RustDemangle.cpp:190-222 | a successful demangling has consumed the symbol up to its first dot |
| RustDemangler.Demangler.Demangle | 3rd-party/llvm-demangle/RustDemangle.cpp:190-222 | the object succeeds exactly on symbols with the prefix whose parse has no error, and its output is then the printed path with its suffix |
| RustDemangler.Demangler.DemanglePath | 3rd-party/llvm-demangle/RustDemangle.cpp:241-342 | the method does to the fields what the grammar's function says, for every state |
| RustDemangler.Demangler.DemangleImplPath | 3rd-party/llvm-demangle/RustDemangle.cpp:346-350 | as the function, with printing switched off and back to what it was |
| RustDemangler.Demangler.DemangleGenericArg | 3rd-party/llvm-demangle/RustDemangle.cpp:356-363 | as the function |
| RustDemangler.Demangler.DemangleType | 3rd-party/llvm-demangle/RustDemangle.cpp:536-618 | as the function |
| RustDemangler.Demangler.DemangleFnSig | 3rd-party/llvm-demangle/RustDemangle.cpp:623-662 | as the function |
| RustDemangler.Demangler.DemangleDynBounds | 3rd-party/llvm-demangle/RustDemangle.cpp:665-674 | as the function |
| RustDemangler.Demangler.DemangleDynTrait | 3rd-party/llvm-demangle/RustDemangle.cpp:678-693 | as the function |
| RustDemangler.Demangler.OptionalBinder | 3rd-party/llvm-demangle/RustDemangle.cpp:698-720 | as the function |
| RustDemangler.Demangler.DemangleConst | 3rd-party/llvm-demangle/RustDemangle.cpp:725-768 | as the function |
| RustDemangler.Demangler.ConstInt | 3rd-party/llvm-demangle/RustDemangle.cpp:771-783 | as the function |
| RustDemangler.Demangler.ConstChar | 3rd-party/llvm-demangle/RustDemangle.cpp:804-844 | as the function, with the escapes for the characters that need them |
| RustDemangler.Demangler.ParseIdentifier | 3rd-party/llvm-demangle/RustDemangle.cpp:847-868 | as the function |
| RustDemangler.Demangler.ParseBase62 | 3rd-party/llvm-demangle/RustDemangle.cpp:893-927 | the checked 64-bit loop computes the function's number and cursor |
| RustDemangler.Demangler.ParseDecimal | 3rd-party/llvm-demangle/RustDemangle.cpp:933-959 | the same for decimal numbers |
| RustDemangler.Demangler.ParseHex | 3rd-party/llvm-demangle/RustDemangle.cpp:967-999 | the same for hexadecimal numbers |
| RustDemangler.Demangler.PrintLifetime | 3rd-party/llvm-demangle/RustDemangle.cpp:1025-1045 | as the function |
| RustNumbers.ParseBase62Exact | 3rd-party/llvm-demangle/RustDemangle.cpp:893-927 | base-62 parsing fails if and only if the run of digits is not closed by an underscore or the number needs more than 64 bits; otherwise it returns the mathematical number and stops behind the underscore |
| RustNumbers.ParseDecimalExact | 3rd-party/llvm-demangle/RustDemangle.cpp:933-959 | decimal parsing fails if and only if there is no digit or the number needs more than 64 bits; a leading zero is the whole number |
| RustNumbers.ParseHexExact | 3rd-party/llvm-demangle/RustDemangle.cpp:967-999 | hexadecimal parsing fails if and only if the digits are missing, not closed, or start with a superfluous zero; the value is the number modulo 2^64 |
| RustNumbers.HexFits | 3rd-party/llvm-demangle/RustDemangle.cpp:967-999 | up to sixteen digits the value is exact |
| RustDryRun.DryPath | 3rd-party/llvm-demangle/RustDemangle.cpp:241-342 | if a printing parse of a path ends without error, the silent parse from the same place ends without error at the same place with the same binder depth, and leaves any output alone, although it skips the bodies of backreferences |
| RustDryRun.DryType | 3rd-party/llvm-demangle/RustDemangle.cpp:536-618 | the same for types |
| RustDryRun.DryConst | 3rd-party/llvm-demangle/RustDemangle.cpp:725-768 | the same for constants |
| RustDryRun.DryGenericArg | 3rd-party/llvm-demangle/RustDemangle.cpp:356-363 | the same for generic arguments |
| RustDryRun.LifetimeNamesDistinct | 3rd-party/llvm-demangle/RustDemangle.cpp:1025-1045 | lifetimes at different binder depths have different names |
| RustDryRun.PrintsBoundName | 3rd-party/llvm-demangle/RustDemangle.cpp:1025-1045 | the name that is printed for a depth is the letter of the alphabet at that place, and z1, z2, ... behind it |
| RustDryRun.BindersPrintNewNames | 3rd-party/llvm-demangle/RustDemangle.cpp:698-720 | a binder prints exactly the names by which its lifetimes are later referred to, in order |
| RustDryRun.LifetimesPrintTheirBinders | 3rd-party/llvm-demangle/RustDemangle.cpp:1025-1045 | a lifetime reference prints the name its binder introduced, and is an error if and only if nothing is bound at that index |
| RustRoundTripProof.ConstShown | 3rd-party/llvm-demangle/RustDemangle.cpp:725-768 | the mangled form of any constant, backreferences included, anywhere in a symbol, is read to its end; what is printed, unless printing is off, is its display |
| RustRoundTripProof.PathShown | 3rd-party/llvm-demangle/RustDemangle.cpp:241-342 | the mangled form of any path tree (crates, impls, trait definitions, nested items, generics, backreferences) is read to its end, printing or not, if the levels it needs are left; what is printed is its display, with names of associated types as they are written |
| RustRoundTripProof.TypeShown | 3rd-party/llvm-demangle/RustDemangle.cpp:536-618 | the same for any type tree (basic, named, array, slice, tuple, reference, pointer, function, dyn, backreference), with lifetimes resolved against the binders around it |
| RustRoundTripProof.LettersShown | 3rd-party/llvm-demangle/RustDemangle.cpp:456-534 | each of the 21 letters of RFC 2603 is read as a type, and the text printed for it is the one in the table: l prints i32, m prints u32, and so on |
| RustRoundTripProof.PrintsChar | 3rd-party/llvm-demangle/RustDemangle.cpp:804-844 | the text of a character in a literal: an escape for tab, newline, return, quote and backslash, itself if it is printable, its number in hexadecimal otherwise |
| RustRoundTripProof.PrintsDashed | 3rd-party/llvm-demangle/RustDemangle.cpp:640-655 | an ABI name is printed with a dash for every underscore |
| RustRefusals.PathLetters | 3rd-party/llvm-demangle/RustDemangle.cpp:246-342 | a path that is read starts with one of the seven letters of RFC 2603 |
| RustRefusals.TypeLetters | 3rd-party/llvm-demangle/RustDemangle.cpp:536-618 | a type that is read starts with the letter of a basic type, with one of the ten letters for the other types, or with that of a path |
| RustRefusals.ConstLetters | 3rd-party/llvm-demangle/RustDemangle.cpp:725-768 | a constant that is read starts with the letter of an integer type, of bool, char or a placeholder, or with a backreference |
| RustRefusals.NamespaceLetters | 3rd-party/llvm-demangle/RustDemangle.cpp:283-312 | the namespace of a nested path that is read is a letter |
| RustRefusals.IdentifierLetters | 3rd-party/llvm-demangle/RustDemangle.cpp:847-868 | an identifier that is read holds letters, digits and underscores only |
| RustRefusals.NumberLetters | 3rd-party/llvm-demangle/RustDemangle.cpp:933-999 | decimal and hexadecimal numbers that are read hold their digits only, the latter up to an underscore |
| RustRoundTripProof.DemangleInvertsMangle | 3rd-party/llvm-demangle/RustDemangle.cpp:190-222 | every symbol built from a path tree within the recursion limit, with backreferences to any earlier place, with or without instantiating crate and suffix, demangles to the display of that tree with the names of associated types as they are written; what a backreference stands for is displayed in the scope where it stands (RustDisplay.DemangleExact compares this with decoded names) |
| RustDepth.PathFits | 3rd-party/llvm-demangle/RustDemangle.cpp:241-249 | a path that is read without an error had the levels it needs: one for each nested path, type and constant, where a backreference counts what it stands for if it is printed and nothing more otherwise |
| RustDepth.TypeFits | 3rd-party/llvm-demangle/RustDemangle.cpp:536-544 | the same for types |
| RustDepth.BudgetDecides | 3rd-party/llvm-demangle/RustDemangle.cpp:190-222 | for every limit, a well-formed symbol is refused if and only if its path or its instantiating crate needs more levels than the limit |
| RustDepth.TowerLimit | 3rd-party/llvm-demangle/RustDemangle.cpp:94 | with the limit of the program a path of n names, each inside the one before, is refused if and only if n is 500 or more |
| RustDisplay.NameTexts | 3rd-party/llvm-demangle/RustDemangle.cpp:1201-1211 | a Punycode name is shown as it is written only if it is empty, and no name is shown with a space |
| RustDisplay.PathAgrees | 3rd-party/llvm-demangle/RustDemangle.cpp:241-342 | the display with names of associated types as written and the one with decoded names are equal for a path without Punycode in the bindings it shows, and differ at some character otherwise |
| RustDisplay.DemangleExact | 3rd-party/llvm-demangle/RustDemangle.cpp:190-222 | the program on every well-formed symbol: it refuses exactly those nested deeper than its limit, and its output is the display of the path, all names decoded, if and only if no binding that is shown has a Punycode name that is not empty |
| RustDisplay.PunycodeBindingUndecoded | 3rd-party/llvm-demangle/RustDemangle.cpp:688-688 | a symbol whose binding is printed as a_ and should read a |
| RustDisplay.ExampleTraitTexts | 3rd-party/llvm-demangle/RustDemangle.cpp:678-693 | the trait of that symbol is printed as b<a_ = u8> and should read b<a = u8> |
| RustRoundTripProof.BackreferenceExample | 3rd-party/llvm-demangle/RustDemangle.cpp:113-126 | one such symbol, with a backreference to an earlier argument |
| Punycode.Utf8RoundTrip | 3rd-party/llvm-demangle/RustDemangle.cpp:1070-1100 | decoding by the grammar in section 4 of RFC 3629 (continuation bytes, shortest forms, no surrogates) gives back every sequence of code points that was encoded |
| Punycode.Utf8Converse | 3rd-party/llvm-demangle/RustDemangle.cpp:1070-1100 | conversely every byte string without nulls that this grammar accepts is what the program writes for its code points |
| Punycode.EncodeSlot | 3rd-party/llvm-demangle/RustDemangle.cpp:1070-1100 | a code point is encoded if and only if it is a Unicode scalar value, in a slot of four bytes padded with nulls |
| Punycode.OverflowMeansHuge | 3rd-party/llvm-demangle/RustDemangle.cpp:1150-1181 | a variable-length integer on which the 64-bit tests give up is larger than anything a valid name contains |
| Punycode.SixtyFourBitsSuffice | 3rd-party/llvm-demangle/RustDemangle.cpp:1105-1199 | the overflow tests on 64-bit integers accept and compute exactly what the same decoder with unbounded integers does |
| Punycode.ProgramVersusStandard | 3rd-party/llvm-demangle/RustDemangle.cpp:1105-1199 | for every name: the decoder agrees with section 6.2 of RFC 3492, its parameters written as numbers (where its result has a UTF-8 encoding), unless the only delimiter comes first, a character before the delimiter is ASCII but no symbol character, or a capital letter follows the delimiter; the first is skipped where the standard fails, the other two are refused |
| Punycode.SameAdapt | 3rd-party/llvm-demangle/RustDemangle.cpp:1137-1148 | the bias adaptation is that of section 6.1 of RFC 3492 with its parameters in numbers: damp 700, base 36, skew 38 |
| Punycode.ProgramDiffers | 3rd-party/llvm-demangle/RustDemangle.cpp:1115-1127 | a lone delimiter is the empty name to the program and an error to the standard; a lone capital letter is the reverse |
| Punycode.StripSlots | 3rd-party/llvm-demangle/RustDemangle.cpp:1061-1068 | removing null bytes from the slots leaves exactly the UTF-8 text |
| Punycode.SlotsInsert | 3rd-party/llvm-demangle/RustDemangle.cpp:1190-1194 | inserting a slot of four bytes at four times the index inserts the code point at the index |
| Punycode.AdaptBias | 3rd-party/llvm-demangle/RustDemangle.cpp:1137-1148 | the bias adaptation of RFC 3492 section 6.1, with the first and the later damping |
| Punycode.CopyBasic | 3rd-party/llvm-demangle/RustDemangle.cpp:1115-1127 | the characters before the last delimiter become slots, refused if and only if one is not allowed in a symbol |
| Punycode.RemoveNullBytes | 3rd-party/llvm-demangle/RustDemangle.cpp:1061-1068 | the in-place compaction keeps everything before the start and drops exactly the null bytes behind it |
| Punycode.ReadInteger | 3rd-party/llvm-demangle/RustDemangle.cpp:1150-1181 | the loop over I, W and K reads the integer of RFC 3492 section 6.2 or fails where the overflow tests say so |
| Punycode.InsertSlot | 3rd-party/llvm-demangle/RustDemangle.cpp:1190-1194 | one insertion into the output buffer, refused if and only if the code point is not a scalar value |
| Punycode.DecodePunycode | 3rd-party/llvm-demangle/RustDemangle.cpp:1105-1199 | the in-place decoder fails if and only if the decoder on lists of code points does; otherwise it appends the UTF-8 of the decoded code points and nothing else |
| Leb128.ReadULEB128 | core/api/dwarf.cpp:92-103 | the shift loop computes the number its seven-bit groups denote, modulo 2^64, and stops behind the last group, the end, or ten bytes |
| Leb128.ReadSLEB128 | core/api/dwarf.cpp:105-119 | the same with sign extension |
| Leb128.UnsignedRoundTrip | core/api/dwarf.cpp:92-103 | every unsigned 64-bit number is read back from its encoding, and exactly its bytes are consumed |
| Leb128.SignedRoundTrip | core/api/dwarf.cpp:105-119 | every signed 64-bit number is read back from its encoding, and exactly its bytes are consumed |
| Leb128.WordIs | core/api/dwarf.cpp:92-119 | the word of the loops has 64 bits |
| Leb128.PaddedUnsigned | core/api/dwarf.cpp:92-103 | an unsigned number however long it is padded: the value is right modulo 2^64, and the cursor ends behind it if and only if it has at most ten bytes, otherwise after ten |
| Leb128.PaddedSigned | core/api/dwarf.cpp:105-119 | the same for signed numbers; every value that fits a word is read right |
| Leb128.ElevenBytesLeaveOne | core/api/dwarf.cpp:92-103 | zero in eleven bytes is read as zero, and the last byte is left |
| DwarfAttributes.ReadAttr | core/api/dwarf.cpp:184-450 | a value that is read ends between where it starts and the end of the unit |
| DwarfAttributes.CursorIndependent | core/api/dwarf.cpp:184-450 | the cursor moves alike whatever outputs are wanted, whatever string sections there are and whatever the string offsets base is, indirect forms included |
| DwarfAttributes.ValueIndependent | core/api/dwarf.cpp:184-450 | the number read does not depend on whether the string is wanted or on the string offsets base |
| DwarfForms.DirectRoundTrip | core/api/dwarf.cpp:184-450 | for every form of the standard's table that the loader knows, the cursor ends right behind what a producer wrote (a number, a string, a block of any bytes), and that number or string is what the loader gets; for the forms that it skips it gets nothing |
| DwarfForms.SkippedForms | core/api/dwarf.cpp:184-450 | the forms whose values the loader passes over are exactly data16, line_strp, strp_sup, loclistx, rnglistx, addrx and its sized kinds, and implicit constants, which have no bytes; they give neither number nor string |
| DwarfForms.AddressSizedReference | core/api/dwarf.cpp:184-450 | a ref_addr of the size of an address, as in version 2 of the standard, is read to its end if and only if addresses and offsets have the same size |
| DwarfForms.OperandIs | core/api/dwarf.cpp:162-179 | a block that starts with one of the two known operations and a number has that number as its value |
| DwarfForms.AttrRoundTrip | core/api/dwarf.cpp:184-450 | the same for the entry point, through any number of indirect forms: the value, or nothing for a skipped form, is read back if and only if it takes bytes or another byte of the unit follows |
| DwarfForms.RefusedExactly | core/api/dwarf.cpp:184-450 | a form that the standard's table does not have is a parse error, and any other is one exactly when its value does not end inside the unit: too few bytes, no zero byte behind a string, or a block longer than what is left |
| DwarfStrings.StringFound | core/api/dwarf.cpp:128-139 | a string that stands anywhere in the string section, closed by a zero byte, is what its offset gives |
| DwarfStrings.IndexedStringRead | core/api/dwarf.cpp:141-160 | a producer's law for strx and strx1 to strx4, in both formats: with a string section of zero-terminated strings and, from the base on, an offsets section of their offsets, the loader gets exactly the characters of the string whose offset stands at the index |
| DwarfStrings.OffsetStringRead | core/api/dwarf.cpp:128-139 | the same for strp: exactly the characters of the string at the offset |
| DwarfStrings.InlineStringRead | core/api/dwarf.cpp:184-450 | the same for a string in the entry itself |
| DwarfStrings.SecondStringByIndex | core/api/dwarf.cpp:141-160 | two strings, a base of eight bytes, and the second string by its index |
| DwarfAbbrevs.SpecsRoundTrip | core/api/dwarf.cpp:467-484 | the attribute list of an abbreviation is read back as written, implicit constants included |
| DwarfAbbrevs.EntryRoundTrip | core/api/dwarf.cpp:452-491 | an abbreviation is read back and added to the table |
| DwarfAbbrevs.TableRoundTrip | core/api/dwarf.cpp:452-491 | a whole abbreviation table is read back, the later of two equal codes winning, and the cursor ends behind it |
| DwarfAbbrevs.SectionRoundTrip | core/api/dwarf.cpp:493-507 | a section of tables is read back, each under the offset where it starts |
| DwarfLoader.DwarfLoader.ParseAbbrevTable | core/api/dwarf.cpp:452-491 | the loop stores the parsed table under its offset and changes no other |
| DwarfLoader.DwarfLoader.ParseAbbrevSection | core/api/dwarf.cpp:493-507 | the section's tables, one after the other |
| DwarfDies.NextToken | core/api/dwarf.cpp:528-596 | an entry is at least one byte and never reaches past its unit |
| DwarfDies.VisitKeepsScope | core/api/dwarf.cpp:598-745 | after any entry the struct that its children would join exists |
| DwarfDies.WalkReadsTree | core/api/dwarf.cpp:527-748 | from any context and stack, the flat loop over the bytes of a forest does what the recursive reader does and comes back to the context and stack it had |
| DwarfDies.LoopRefinesTreeReader | core/api/dwarf.cpp:509-748 | for a unit that spells a forest, the loop with its explicit stack collects what the recursive reader collects |
| DwarfMeaning.VisitDecls | core/api/dwarf.cpp:598-745 | one entry adds a struct, a member or a base with its type to the struct around it, or nothing, by its tag and name |
| DwarfMeaning.TreeDecls | core/api/dwarf.cpp:509-748 | reading a forest appends exactly the structs it declares, at any depth and with namespace prefixes, each with the bases and members among its own children |
| DwarfMeaning.TreeRegistry | core/api/dwarf.cpp:598-745 | the type registry gains exactly the types the forest declares, by offset |
| DwarfMeaning.FinalStructs | core/api/dwarf.cpp:899-909 | resolution gives every base and member the spelled name of its type and changes nothing else |
| DwarfMeaning.UnitMeaning | core/api/dwarf.cpp:509-748 | end to end: the bytes of a unit that spell a forest yield the structs which the forest declares, with every type named |
| DwarfProducer.AttrsRoundTrip | core/api/dwarf.cpp:555-592 | the attributes of an entry are all read back, up to the very end of the unit, if and only if another byte of the unit follows, or there are only implicit constants, or the last other attribute takes bytes; otherwise the entry is a parse error |
| DwarfProducer.InfoIs | core/api/dwarf.cpp:573-591 | of several attributes with one name the last counts; an empty name never replaces another |
| DwarfProducer.ItemRoundTrip | core/api/dwarf.cpp:528-596 | under exactly that condition an entry written by its abbreviation is read as that tag, with those attributes and that type offset, and the cursor ends behind it |
| DwarfProducer.UnknownCodeIsRefused | core/api/dwarf.cpp:540-545 | an abbreviation code that the table does not have is a parse error |
| DwarfProducer.NoTypeNoOffset | core/api/dwarf.cpp:594-596 | an entry without a type attribute has no type offset |
| DwarfProducer.FlagAtEndIsRefused | core/api/dwarf.cpp:188-188 | an entry that ends with its unit and whose last attribute is a flag without bytes is a parse error |
| DwarfProducer.SourceSpelled | core/api/dwarf.cpp:527-748 | the bytes that a producer writes for a tree of entries, children closed by null entries, spell that tree if and only if another byte of the unit follows or the last entry can stand at its end |
| DwarfProducer.ReferenceExact | core/api/dwarf.cpp:594-596 | the offset kept for the type of an entry is the one the standard means (an offset in the section, not a type signature and not one in a supplementary file) if and only if the real form is ref_addr, or it is relative to the unit and either direct, with a sum below 2^64, or in a unit that starts the section |
| DwarfProducer.SignatureTakenForOffset | core/api/dwarf.cpp:594-596 | a direct type signature: its number is looked up as an offset |
| DwarfProducer.IndirectTakenForAbsolute | core/api/dwarf.cpp:594-596 | a relative reference behind an indirect form, in a unit that does not start the section: the start of the unit is not added |
| DwarfProducer.ProducedUnitMeaning | core/api/dwarf.cpp:509-748 | from the bytes a producer writes for a tree that fills a unit to the structs the loader holds in the end, every type named |
| DwarfSections.HeaderRoundTrip | core/api/dwarf.cpp:751-819 | headers of both layouts (before version 5 and from it on), in the 32-bit and 64-bit format, are read back, and the unit ends where its length says |
| DwarfSections.SpanExact | core/api/dwarf.cpp:751-775 | conversely a unit that is found has its length field in front of it, in either format, and fits the section |
| DwarfSections.HeaderExact | core/api/dwarf.cpp:751-819 | conversely a header that is found stands there, that of a compilation unit with the version, address size and abbreviation offset that are used; so other unit types and headers that are cut short are ignored |
| DwarfSections.UnitParsed | core/api/dwarf.cpp:750-878 | a unit as a producer writes it, filled by its entries or padded behind a null entry, is read as its forest; a unit that the loader has no use for as nothing; and the next unit starts behind it |
| DwarfSections.UnitBase | core/api/dwarf.cpp:837-864 | its strings are looked up with the base that its first entry was given |
| DwarfSections.SectionRead | core/api/dwarf.cpp:911-927 | any number of such units, up to the end of the section or to bytes that hold no unit: the declarations of all of them in order, and the types of all of them |
| DwarfSections.SectionMeaning | core/api/dwarf.cpp:911-927 | end to end for a whole file: abbreviation tables and units as a producer writes them, padded or not, with other units between them and other bytes behind them, yield the structs that all units declare, every member and base with the name of its type, looked up over all units |
| DwarfTypes.VisitKeepsSound | core/api/dwarf.cpp:598-745 | every pending reference keeps a slot of its own in the structs while entries are visited, and no existing slot moves or changes its name |
| DwarfTypes.WalkKeepsSound | core/api/dwarf.cpp:509-748 | so over any bytes, broken ones included, all pending references stay valid |
| DwarfTypes.ResolveSpells | core/api/dwarf.cpp:880-897 | a type of the registry is spelled with *, &, const, volatile and [] as its levels say, const and volatile alone over nothing; in full up to eight levels, and cut after nine |
| DwarfTypes.NinePointersLoseName | core/api/dwarf.cpp:880-897 | nine pointers to a named type are spelled as nine stars |
| DwarfTypes.ResolveFirstNames | core/api/dwarf.cpp:899-909 | a pending slot ends up with the name of its type, every other slot is as it was |
| DwarfNames.SpelledWithin | core/api/dwarf.cpp:527-748 | the entries of a unit stand at increasing offsets inside it, so an offset means one entry |
| DwarfNames.ResolvesType | core/api/dwarf.cpp:880-897 | the resolved name at an offset is the spelling of the type that the entries give there by their tags (0x0f, 0x42, 0x10, 0x26, 0x35, 0x01 and the named ones), nine levels deep, whatever the references lead to |
| DwarfNames.EightLevelsAreAll | core/api/dwarf.cpp:880-897 | a type of at most eight levels is not cut: looking further changes nothing |
| DwarfNames.UnitTypeNames | core/api/dwarf.cpp:899-909 | from the bytes of a unit: every member and base of every struct ends with the spelling of its type |
| DwarfNames.SectionTypeNames | core/api/dwarf.cpp:899-927 | from the bytes of a whole file: the same, with references from one unit to another |
| DwarfLoader.DwarfLoader.VisitEntry | core/api/dwarf.cpp:598-745 | the switch on the tag changes structs, registry and pending references as the function says |
| DwarfLoader.DwarfLoader.ParseDIETree | core/api/dwarf.cpp:509-748 | the loop with its stack ends, on any bytes, with what the walk collects |
| DwarfLoader.DwarfLoader.ResolveTypes | core/api/dwarf.cpp:899-909 | every pending reference is resolved, none is out of range |
| DwarfUnits.UnitSpan | core/api/dwarf.cpp:751-775 | a unit lies inside the section |
| DwarfUnits.ReadHeader | core/api/dwarf.cpp:751-819 | an unusable header never changes where the unit ends |
| DwarfUnits.PeekSeesEntryPass | core/api/dwarf.cpp:837-864 | the peek at the first entry finds the string offsets base that the entry pass reads, since both see the same attribute boundaries |
| DwarfUnits.UnitStarts | core/api/dwarf.cpp:911-927 | the units follow one another without gap or overlap |
| DwarfUnits.UnitsTile | core/api/dwarf.cpp:911-927 | the section is parsed as its tiling of units, so an error inside one unit never shifts the next |
| DwarfUnits.UnitsKeepSound | core/api/dwarf.cpp:911-927 | pending references stay valid over all units until they are resolved |
| DwarfLoader.DwarfLoader.ParseCompileUnit | core/api/dwarf.cpp:750-878 | one unit: where the next one starts and what was collected |
| DwarfLoader.DwarfLoader.ParseInfoSection | core/api/dwarf.cpp:911-927 | all units and the resolution after them; no pending reference is invalid |
| LoadBlocks.RunRefines | core/common/load_block.cpp:35-102 | over any run of writes, overlay removals, file mappings and unmappings, the three layers show what three plain byte arrays of the block's size would show |
| LoadBlocks.WritesAreUpdates | core/common/load_block.cpp:59-83 | any run of writes is seen as updates of one byte array through all layers, leaves address and bytes of the lower layers alone, and removing the overlay of a block that is not fake brings back the block as it was |
| LoadBlocks.NewOverlayShowsSame | core/common/load_block.cpp:59-76 | a new overlay shows what was there, with zeros behind the bytes of the file |
| LoadBlocks.UnmapKeepsFileInOverlay | core/common/load_block.cpp:35-57 | with an overlay, mapping and unmapping a file leaves the file's bytes over what was shown before; without one it leaves the block without a file |
| LoadBlocks.UnmapLeavesFile | core/common/load_block.cpp:35-57 | an overlay of zeros that shows a file after the file has been unmapped |
| LoadBlocks.LoadBlock.NewOverlay | core/common/load_block.cpp:59-76 | the method copies or zero-fills as the function says, and fails if and only if there is no memory |
| LoadBlocks.LoadBlock.SetOverlay | core/common/load_block.cpp:78-83 | a write through the overlay at the masked address |
| LoadBlocks.LoadBlock.RemoveOverlay | core/common/load_block.cpp:93-102 | the overlay goes unless the block is fake |
| LoadBlocks.LoadBlock.SetMmapFile | core/common/load_block.cpp:35-57 | the file becomes a layer, copied to anonymous memory if its pages are too few, and is copied into an overlay |
| LoadBlocks.LoadBlock.RemoveMmap | core/common/load_block.cpp:85-91 | the file layer goes, the overlay stays |
| LoadBlocks.MaskKeepsLowBits | core/api/core.h:208-208 | masking an address keeps its low bits and clears the others |
| AddressSpace.ScanUnique | core/api/core.h:196-226 | in an ordered list only one block contains an address |
| AddressSpace.SelectedOrdered | core/api/core.cpp:255-259 | the filtered list of an ordered list is ordered |
| AddressSpace.QuickLookup | core/api/core.cpp:255-259 | a lookup that uses the filtered list finds a block if and only if it has flags or the filter is off, and otherwise the same as one that does not |
| AddressSpace.InsertKeepsOrder | core/api/core.cpp:249-251 | an insertion keeps the list ascending and disjoint if and only if the block fits between its neighbours |
| AddressSpace.QuickFollows | core/api/core.cpp:202-205 | the separately searched insertion into the filtered list gives the filter of the new list |
| AddressSpace.AutomaticIsFirstFit | core/api/core.cpp:206-232 | for every size: automatic placement fails if and only if the size is zero, a block contains address 0, or there is room neither at the low address nor between the blocks; it takes the low address or else the lowest free range, and fits if and only if the test for the low address did not wrap around |
| AddressSpace.ExplicitFits | core/api/core.cpp:187-205 | an accepted explicit placement fits if and only if the sum does not wrap and, when the search stopped at the last block, the new block ends before it |
| AddressSpace.RoundsUp | core/api/core.cpp:167-168 | rounding gives the next whole page of 0x1000 bytes, and nothing if and only if there was nothing to round or the sum wraps around |
| AddressSpace.LargestRoundsToNothing | core/api/core.cpp:167-168 | a size that is rounded to nothing, and one that is rounded up |
| AddressSpace.PlacedWhereAsked | core/api/core.cpp:187-205 | an accepted explicit address is the one that is given |
| AddressSpace.BehindLastLosesOrder | core/api/core.cpp:187-205 | a block placed behind the only block is inserted before it |
| AddressSpace.BeforeLastOverlaps | core/api/core.cpp:187-205 | a block placed right below the only block overlaps it |
| AddressSpace.ZeroBlockRefusesAll | core/api/core.cpp:206-232 | one page at address 0: nothing is placed although there is room |
| AddressSpace.WrappedSizeIsPlaced | core/api/core.cpp:206-232 | a size that wraps around is placed at the low address over the block above it |
| CoreMemory.CoreApi.FindLoadBlock | core/api/core.h:202-226 | bisection returns the block that a scan of the chosen list finds, or null if there is none |
| CoreMemory.CoreApi.NewLoadBlock | core/api/core.cpp:163-253 | fails if and only if there is no place or no memory; otherwise a new zero-filled fake block is in the list at that place: its size is the request in whole pages of 0x1000 bytes, and for an explicit address it starts at the next page; the filtered list has all its old blocks, and the index stays valid if and only if the block fits |
| CoreMemory.CoreApi.ChoosePlace | core/api/core.cpp:175-233 | the search for the place of a block and for its index in the filtered list |
| CoreMemory.CoreApi.AddLoadBlock | core/api/core.cpp:255-259 | appending keeps the index valid if and only if the block comes after all others |
| CoreMemory.CoreApi.V2r | core/api/core.cpp:489-500 | virtual to real through the layers allowed |
| CoreMemory.CoreApi.R2v | core/api/core.cpp:502-508 | real to virtual by the first block that holds the address |
| CoreMemory.TranslationRoundTrip | core/api/core.cpp:489-508 | translating there and back gives the untagged address if and only if the block has a byte there |
| CoreMemory.TranslatedOneWay | core/api/core.cpp:489-508 | one byte in the file and two in memory: the second address is translated, but not back |
| CoreMemory.RealRoundTrip | core/api/core.cpp:489-508 | a real address that translates to a virtual one lies in the block found there at the same offset, and translates back |
| CoreMemory.ReadExact | core/api/core.cpp:442-456 | for every choice of layers: an address with tag bits overruns as soon as there is something to copy, any other gives the bytes of the topmost chosen layer, with the length of the topmost of all layers, or overruns if that layer is too short |
| CoreMemory.ReadAll | core/api/core.cpp:442-456 | through all layers a read stays inside its memory if and only if it starts no later than behind the block's last byte; then it gets the flat map's bytes up to the end of the request or of the block |
| CoreMemory.TaggedReadOverruns | core/api/core.cpp:442-456 | a read of one byte succeeds through the plain address and overruns through the tagged one |
| CoreMemory.ReadBehindFile | core/api/core.cpp:442-456 | one byte in the file and four in memory: a read from the third on overruns |
| CoreMemory.LowerReadsKept | core/api/core.cpp:442-456 | after any run of writes a read through the lower layers has the same outcome if and only if the block already had an overlay or a mapped file, or it has bytes of its own and these are not read, or fill the memory, or reach to the end of the request, or end before its start |
| CoreMemory.WriteBreaksOriginRead | core/api/core.cpp:442-456 | one byte in the file and two in memory: a read of both from the file overruns after a write |
| CoreMemory.CoreApi.Read | core/api/core.cpp:442-456 | the exception, the missing layer, the clipped copy or the overrun, in the order of the code |
| CoreMemory.WrittenAt | core/api/core.cpp:435-440 | a write inside a block updates the flat address map there and nowhere else |
| CoreMemory.CoreApi.Write | core/api/core.cpp:435-440 | the same for the object: fails if and only if no block has the address, and leaves the index and the mapped files alone |
| MemoryRefs.CachedIsFound | core/api/memory_ref.h:91-105 | a remembered block is the one a search would find |
| MemoryRefs.CacheNeverStale | core/api/memory_ref.h:70-117 | over any run of constructions (also from a block of the index), copies, moves, look-ups and order-preserving insertions, every remembered block is the one that a search for the pointer's address finds |
| MemoryRefs.MemoryRef.In | core/api/memory_ref.h:72-76 | a pointer made with a block of the index remembers it if and only if it contains the address |
| MemoryRefs.MemoryRef.From | core/api/memory_ref.h:73-78 | a block taken over from another pointer contains the new address |
| MemoryRefs.MemoryRef.Ready | core/api/memory_ref.h:102-105 | throws if and only if the check is wanted and translation would throw |
| MemoryRefs.MemoryRef.Move | core/api/memory_ref.h:109-117 | the address moves modulo 2^64 and the remembered block is right for it or forgotten |
| MemoryRefs.MemoryRef.Real | core/api/memory_ref.h:91-98 | equals translation without the cache, except that address 0 is not looked up |
| CoreMemory.ZeroIsTranslated | core/api/core.cpp:489-500 | a byte at address 0 has a translation, which a pointer with address 0 does not use |
| BitRegion.NewRegionKeepsBits | android/art/base/bit_memory_region.h:32-36 | moving the base to a page does not move the bits |
| BitRegion.LoadBitsExact | android/art/base/bit_memory_region.cpp:30-56 | for both word sizes, any offset and any length up to the word, the loaded number has exactly the region's bits |
| BitRegion.VisitChunks | android/art/base/bit_memory_region.cpp:72-115 | the chunks tile the region once, in order, and each value is the number of its bits |
| BitRegion.TilesCount | android/art/base/bit_memory_region.cpp:61-70 | the set bits of the chunks of a tiling are those of the region |
| BitRegion.RegionPopCount | android/art/base/bit_memory_region.cpp:61-70 | the count of set bits of the region |
| BitTable.BitMemoryReader.ReadRegion | android/art/base/bit_memory_region.h:82-86 | regions are handed out one after the other |
| BitTable.BitMemoryReader.ReadVarint | android/art/base/bit_memory_region.h:99-102 | a varint and how far it moves the reader |
| BitTable.BitMemoryReader.ReadInterleavedVarints | android/art/base/bit_memory_region.cpp:117-128 | the first nibbles of all numbers, then the payloads of those that need one |
| BitTable.VarintRoundTrip | android/art/base/bit_memory_region.h:99-102 | every 32-bit number is read back from its varint, to the bit |
| BitTable.VarintsRoundTrip | android/art/base/bit_table.cpp:39-48 | the same for a sequence of varints |
| BitTable.InterleavedRoundTrip | android/art/base/bit_memory_region.cpp:117-128 | the same for interleaved varints |
| BitTable.BitTable.DecodeOnly | android/art/base/bit_table.cpp:24-51 | the object's rows, offsets, data and the reader's position are those of the decoder, in both header formats, given the offsets the object had before; older versions change nothing |
| BitTable.TableRoundTrip | android/art/base/bit_table.cpp:24-51 | decoding an encoded table gives its row count and column widths, every cell less one modulo 2^32, and stops right behind the last row |
| BitTable.CellRoundTrip | android/art/base/bit_table.h:38-47 | a stored cell is read back through 16-bit offsets and 32-bit products that do not overflow |
| BitTable.CellsDisjoint | android/art/base/bit_table.h:44-52 | in a decoded table the regions of any two cells are disjoint, in the order of rows and columns, and inside the table's data |
| BitTable.StaleOffsets | android/art/base/bit_table.cpp:38-51 | a table of the older format without rows has the offsets that the object had before, resized; they are those of a fresh object if and only if they were zero |
| BitTable.StaleWidths | android/art/base/bit_table.cpp:38-51 | two columns of an empty table that seem five and four bits wide |
| Handshake.RunKeepsInv | parser/ui/ui_thread.cpp:37-70 | every state reachable by any schedule satisfies the protocol's invariant on locks, flag, program points and history |
| Handshake.CommandsRunInOrder | parser/ui/ui_thread.cpp:37-70 | the commands executed are the first ones entered, in order, each once; at most one is outstanding |
| Handshake.NeverOverwritten | parser/ui/ui_thread.cpp:58-70 | whenever a new command is read, all earlier ones have been executed |
| Handshake.MutualExclusion | parser/ui/ui_thread.cpp:37-56 | no lock is held twice, the threads never wait together on the condition variable, and they never access the shared variables at once |
| Handshake.NoDeadlock | parser/core_parser.cpp:377-384 | in every reachable state some thread can move without a spurious wakeup |
| Handshake.EveryScheduleMakesProgress | parser/core_parser.cpp:377-384 | a schedule of n steps has executed at least about n/26 commands, counting spurious wakeups apart: no wakeup is lost |
| PropArea.CompareIs | android/properties/prop_area.cpp:64-71 | the comparison is negative if and only if the first name is shorter, or equally long and smaller at the first byte that differs; positive for the reverse; zero for equal names only |
| PropArea.BeforeTransitive | android/properties/prop_area.cpp:64-71 | this order is transitive |
| PropArea.CompareOrders | android/properties/prop_area.cpp:64-71 | comparing the other way round gives the opposite number |
| PropArea.FindPropbt | android/properties/prop_area.cpp:73-101 | following offsets finds the node that the search tree of the level has for the name |
| PropArea.FindProperty | android/properties/prop_area.cpp:103-147 | the loop over segments and offsets finds what the trie has |
| PropArea.FindIsLookup | android/properties/prop_area.cpp:103-147 | for every trie whose levels are ordered by length and then by bytes, and every name, lookup finds a property if and only if the dotted-name map has it |
| PropArea.FindName | android/properties/prop_area.cpp:149-155 | the same from the bytes of an area, with its magic and version |
| PropArea.EntriesDistinct | android/properties/prop_area.cpp:103-147 | no dotted name is stored twice |
| PropArea.NodeAtUnique | android/properties/prop_area.cpp:46-62 | the bytes determine the trie |
| PropArea.ForeachProperty | android/properties/prop_area.cpp:157-186 | traversal visits the properties of the map's entries, each once, in order |
| PropArea.TraversalIsLookup | android/properties/prop_area.cpp:157-186 | traversal from the root visits exactly what lookup can find if and only if the root node itself has no property and no siblings with properties |
| PropArea.RootPropertyUnseen | android/properties/prop_area.cpp:157-186 | a property at the root is visited, and no name finds it |
| BumpAllocator.RoundedEnough | 3rd-party/llvm-demangle/ItaniumDemangle.cpp:322-323 | rounding gives at least the request if and only if it is below 2^32 - 15 |
| BumpAllocator.LargeRequestGetsNothing | 3rd-party/llvm-demangle/ItaniumDemangle.cpp:322-323 | a request of 2^32 - 15 bytes is rounded to none |
| BumpAllocator.BumpKeeps | 3rd-party/llvm-demangle/ItaniumDemangle.cpp:328-330 | moving the current block's pointer keeps all pieces apart and inside their blocks, the new one included |
| BumpAllocator.GrowKeeps | 3rd-party/llvm-demangle/ItaniumDemangle.cpp:301-306 | so does a new block in front |
| BumpAllocator.MassiveKeeps | 3rd-party/llvm-demangle/ItaniumDemangle.cpp:308-315 | so does a block of its own behind the first |
| BumpAllocator.RequestsApart | 3rd-party/llvm-demangle/ItaniumDemangle.cpp:321-331 | any two requests below 2^32 - 15 bytes got disjoint memory |
| BumpAllocator.MallocedOnce | 3rd-party/llvm-demangle/ItaniumDemangle.cpp:333-341 | no block is in the list twice |
| BumpAllocator.BumpPointerAllocator.Grow | 3rd-party/llvm-demangle/ItaniumDemangle.cpp:301-306 | a fresh standard block comes first |
| BumpAllocator.BumpPointerAllocator.AllocateMassive | 3rd-party/llvm-demangle/ItaniumDemangle.cpp:308-315 | a block of its own is inserted second and given out whole |
| BumpAllocator.BumpPointerAllocator.Allocate | 3rd-party/llvm-demangle/ItaniumDemangle.cpp:321-331 | the piece is aligned, joins those given out before, and all stay inside their blocks and apart; at most one block is asked for |
| BumpAllocator.BumpPointerAllocator.Reset | 3rd-party/llvm-demangle/ItaniumDemangle.cpp:333-341 | exactly the blocks from malloc are freed, each once, never the initial buffer, and the arena is as new |
| Crc.CRC32 | utils/base/utils.cpp:51-65 | the loops compute the checksum of the buffer's first bytes |
| Crc.CRC64 | utils/base/utils.cpp:67-80 | the same with 64 bits |
| Crc.StepInjective | utils/base/utils.cpp:55-62 | a bit step loses nothing |
| Crc.FeedIsSteps | utils/base/utils.cpp:54-62 | feeding bits one by one is putting them into the register at once, up to its width |
| Crc.ChecksumIsFeed | utils/base/utils.cpp:51-65 | the checksum of bytes is that of their bits |
| Crc.Crc32IsRemainder | utils/base/utils.cpp:51-65 | CRC32 is the remainder of the message, shifted by 32 bits and with its first 32 bits inverted, divided by the generator 0x1_04C1_1DB7 over the field of two elements |
| Crc.Crc64IsRemainder | utils/base/utils.cpp:67-80 | the same for CRC64, with 64 bits and the generator 0x1_42F0_E1EB_A9EA_3693 |
| Crc.OneRemainder | utils/base/utils.cpp:51-80 | there is only one such remainder |
| Crc.CheckValues | utils/base/utils.cpp:51-80 | two check values: FF FF FF FE gives 04C11DB7 and FF ... FE of eight bytes gives 42F0E1EBA9EA3693 |
| Crc.BurstDetected | utils/base/utils.cpp:51-80 | two messages of one length that differ only within as many consecutive bits as the register has get the same checksum only if they are equal |
| Crc.BytesDetected | utils/base/utils.cpp:51-80 | the same for bytes |
| Crc.ChangesDetected | utils/base/utils.cpp:51-80 | CRC32 detects every change within four consecutive bytes, CRC64 within eight |
| Crc.MappingChangesDetected | utils/base/linux/memory_map.cpp:101-103 | in mappings of any length a change within four bytes is detected if and only if it reaches below the length modulo 2^32 |
| Crc.LongMappingUncovered | utils/base/linux/memory_map.cpp:101-103 | all mappings of 4 GiB have the same checksum |

## Left out

- RustDemangler.Demangler.Demangle: what is in the output after a failed demangling is not specified, since the program discards it.
- Punycode.SixtyFourBitsSuffice: for names up to (2^64 / 35) / 0x110000 characters (more than 2^38); in longer ones a 64-bit test may refuse what unbounded integers accept, and no symbol table holds such a name.
- DwarfAttributes.ReadAttr: positions and string offsets are mathematical integers, so that a wrap of 64-bit offset sums is not modelled; it is a function, although the source moves a pointer, because every caller takes the new cursor as a value.
- DwarfForms.AttrRoundTrip: addresses of more than eight bytes, whose shift the source leaves undefined, are excluded; LEB128 numbers are written in their shortest form (longer ones are the subject of Leb128.PaddedUnsigned).
- DwarfMeaning.UnitMeaning: one unit from an empty loader; DwarfSections.SectionMeaning is about a whole file.
- DwarfSections.SectionMeaning: the forms are those of version 3 and later (DwarfForms.AddressSizedReference tells what version 2 has otherwise), and addresses have at most eight bytes.
- RustDisplay.DemangleExact: a Punycode name that does not decode counts as one whose display is empty.
- LoadBlocks.LoadBlock.SetMmapFile: memory behind the pages of a mapped file reads as zero; that touching it can fault when the anonymous copy could not be made is not modelled.
- LoadBlocks.LoadBlock.SetOverlay: writes are inside their block; the program does not check this, and a longer one would leave its mapping.
- CoreMemory.CoreApi.NewLoadBlock: addresses of the mappings are given from outside; their alignment is not modelled.
- CoreMemory.ReadExact: for blocks that end inside the address space and requests that do not wrap around 2^64.
- BitTable.BitMemoryReader.ReadInterleavedVarints: at most sixteen numbers, as many as fit the one 64-bit word that the program loads.
- PropArea.FindProperty: the length of a segment is a mathematical integer, not cut to 32 bits.
- BumpAllocator.BumpPointerAllocator.Allocate: the end of the program when `malloc` returns null is not a state of the model.
- File and memory mapping, decompression, section discovery: I/O; the mapping calls are copy-and-zero-fill parameters.
- Commands, shell, HTTP and MCP servers, logging, option parsing: user interface.
- Offset and size tables, register layouts per architecture, the scan for a signal context: constant data and heuristics.
- The Itanium parser and printers: only their arena is modelled.
- The link map of a dumped process: whether following it ends depends on the dump, not on the code.
- Zip and ini reading, descriptor printing, views of STL containers: they would add easy members only.
