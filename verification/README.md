# tysos in Dafny

A Dafny model of the parts of the tysos operating system and its tool chain whose correctness is
hard to see from the code: page tables that have to translate as a simple list says, an allocator on
a bitmap, a grammar rewriting that has to keep the language, a debug file and a symbol file that have
to read back what was written, a name mangler that has to be decodable, 64-bit division from 32-bit
halves, and the kernel's scheduler, events, remote calls and physical memory.

`dafny verify dfyconfig.toml` checks the whole project. The files by component:

| component | files |
|---|---|
| page tables of the EFI loader | `PageTree.dfy` (the hardware format and permissions, Intel SDM Volume 3A sections 4.5 and 4.6), `EfiRegions.dfy` (the search for room), `EfiPaging.dfy` |
| page mapper and bitmap of tload | `BitmapAllocator.dfy`, `TloadPaging.dfy` |
| grammar rewriting and recognizer | `Grammar.dfy` (derivation trees), `Recognizer.dfy`, `GreedyMatch.dfy` (what is accepted, by positions alone) |
| tydb debug files | `Bytes.dfy`, `TydbFormat.dfy`, `TydbTables.dfy` (what is stored once), `TydbWriter.dfy`, `TydbReader.dfy`, `TydbRoundTrip.dfy` |
| 64-bit division | `Bits.dfy`, `Division.dfy` |
| name mangler | `Mangling.dfy` (the code and its decoder), `ManglingDecodable.dfy`, `ManglingShortest.dfy`, `ManglingSymbols.dfy` (symbols other parts spell out), `Mangler.dfy` |
| symbol trie | `TriePalette.dfy`, `SymbolTrie.dfy`, `TrieTail.dfy` (the table of names), `TrieReader.dfy` (reading it back), `TrieImage.dfy` |
| scheduler and events | `Events.dfy`, `ThreadQueues.dfy`, `DeltaQueues.dfy`, `SleepRuns.dfy` (runs of the sleeping queue), `Scheduler.dfy`, `SchedulerRuns.dfy`, `RoundRobin.dfy` |
| remote procedure calls | `Rpc.dfy`, `RpcRuns.dfy` (callbacks by the order of steps), `RpcOrder.dfy` (requests by the order of steps) |
| ring buffer | `Ring.dfy` (one call after the other), `RingProtocol.dfy` (the calls of several threads interleaved) |
| physical memory | `PhysMem.dfy` |
| shared | `Options.dfy` |

How the state is modelled. Code that updates things in place is a class or a method over the same
fields; the tree of page tables and the tree of trie tiers are objects or pages in memory, with a ghost
map from each place in the tree to the page or object that holds it. Machine words are natural numbers
with their width written out. Calls into code outside the model become parameters: the pages
`alloc_code` hands out, whether `malloc` succeeds, the time that passes, the values methods return.
Interrupts, clocks, locks and the screen are not in the model.

What the proofs found where the code does not do what one expects:

- A rule that was left-recursive never matches again once it is rewritten: the recognizer takes an
  entry that consumes nothing for a failure, and the rewritten rule ends in one
  (`Recognizer.LeftRecursiveNeverMatches`). What is accepted is still always in the language.
- `allocate_any` is exact first fit as long as something fits. Where nothing fits it says so exactly if
  list and length are sane. Otherwise its 64-bit sums wrap and it hands out a range that runs past the
  end of the address space, or goes back to 0 and hands out one below the start, or never ends
  (`EfiRegions.RightExactly`, `EfiPaging.PastTheTop`, `EfiPaging.FirstSumWraps`,
  `EfiPaging.BelowTheStart`). It never ends exactly if both the search from the start and the one from 0
  run into a region that reaches the last page (`EfiRegions.EndlessExactly`).
- A debug file reads back as it was written exactly when its texts are there and free of NULs and its
  lengths are bytes (`TydbFormat.PlainFileKept`).
- The mangler picks the shortest text that decodes to the name, except for names in namespace libsupcs of
  module libsupcs that follow one in another namespace of that module: it writes the namespace out, nine
  characters, where a code of its own would do. A method's symbol is the shortest if and only if no name
  in it does (`ManglingShortest.MangledShortest`, `ManglingShortest.OverlookedExample`).
- A thread put to sleep between two sleepers wakes with the one before it, and one put at the end with
  a delay that is not past all sums of the queue wakes just after the largest of them
  (`DeltaQueues.InsertedWakes`). Exactly when a new sleeper wakes on time, in any queue, is
  `DeltaQueues.OnTimeExactly`; over a whole run all threads do if and only if each of them meets that
  condition as it goes to sleep (`SleepRuns.OnTimeRun`). `OverSleeps`, `OverSleepsAtEnd` and
  `WakesEarly` are examples of the other cases.
- Names the palette of a symbol file cannot spell are cut to bytes. They read back as they were added if
  and only if none is read back as another (`TrieReader.NamesReadBack`); `TrieReader.Collide` has two
  that are not.
- A thread of the highest non-empty queue is reached after a bounded wait if and only if no thread ahead
  of it has a priority above the queue; one that has keeps it waiting for ever
  (`RoundRobin.BoundedWaiting`, `RoundRobin.SchedulerBoundedWaiting`).
- A callback never runs exactly if it was tested before the result was set and another one was
  registered on the result before `Set` looked for a callback; the order of the steps can also make it
  run twice (`RpcRuns.CallbackByOrder`, `Rpc.ReplacedNeverRuns`).
- The ring buffer, meant for many producers and consumers, delivers every value once and in order in
  every interleaving without two puts or two takes at once (`RingProtocol.ExclusiveDelivers`). A thread
  overtaken between its two reads can put into a full ring, which then looks empty, or take what nobody
  put (`RingProtocol.UnsoundSucceeds`, `RingProtocol.TwoProducers`, `RingProtocol.TwoConsumers`).
- The rings of the physical allocator hold one less than a power of two, and blocks they have no room
  for are lost. Nothing is lost exactly when both kinds of blocks fit (`PhysMem.NothingLost`); in a
  region of 3 GiB a third of the large blocks is lost (`PhysMem.ThreeGigabytes`).

## Model

| member | source | states |
|---|---|---|
| PageTree.WalkIsLookup | efiloader/vmem.c:166-232 | in any tree of tables, the four-level walk of every address outside slot 511 is the lookup of its page number in the map of leaves, plus the offset, writable exactly as the leaf is, and not-present where the map has nothing |
| PageTree.WindowReachesEntry | efiloader/vmem.c:203-228 | with the recursive entry, the window address of any page walks, writable, to the physical place of that page's own entry, and to not-present when its bottom table is missing |
| PageTree.TopWindowIsRoot | tload/vmem.h:32 | the all-511 address walks to the top table itself |
| PageTree.AddTable | efiloader/vmem.c:166-188 | hanging a zeroed fresh page below a missing entry keeps the tree and every leaf |
| PageTree.SetLeaf | efiloader/vmem.c:226-228 | writing a bottom entry changes frame and permission in the leaf map at that page and nowhere else |
| PageTree.SelfMap | efiloader/vmem.c:288-291 | writing the recursive entry keeps tree and leaves |
| EfiRegions.IntersectsIsOverlap | efiloader/vmem.c:46-56 | for ranges that do not wrap, the comparison of last bytes holds exactly when the two share an address |
| EfiPaging.Loader.Add | efiloader/vmem.c:58-85 | the region is appended if memory for the node is there, else the list is unchanged |
| EfiPaging.Loader.GetIntersect | efiloader/vmem.c:87-99 | the first intersecting region, or none if none intersects |
| EfiPaging.Loader.GetPmemForVmem | efiloader/vmem.c:101-107 | the first region covering the address decides; 0 when none does |
| EfiPaging.Loader.AddStartHole | efiloader/vmem.c:109-116 | sets the hole of the first covering region only, or aborts and changes nothing |
| EfiPaging.Loader.AllocateFixed | efiloader/vmem.c:118-124 | any base and length: added exactly when no region intersects in 64 bits and memory is there; for ranges that do not wrap that is exactly when the range is free, and the regions stay disjoint |
| EfiPaging.Loader.AllocateAny | efiloader/vmem.c:126-146 | the loop with its 64-bit sums, for every list and length for which it ends: if they are sane the lowest page-aligned free base in range, and -1 exactly when there is none, regions staying disjoint; otherwise nothing fits and a range past the end of the address space or below the start is handed out |
| EfiRegions.Skip | efiloader/vmem.c:141-143 | the bases jumped over after an overlap are all occupied |
| EfiRegions.ClimbFits | efiloader/vmem.c:130-143 | without wrapping sums, the loop ends at the lowest base that fits, or past the range exactly when none does |
| EfiRegions.NeverExhausted | efiloader/vmem.c:130-143 | a search that goes on past a wrapped sum does not give up before it goes back to 0; if it ends it takes a range that wraps |
| EfiRegions.WrapAscent | efiloader/vmem.c:130-143 | if the very first sum wraps, the search takes a base exactly when one is left, before it goes back, that no region hits |
| EfiRegions.RightExactly | efiloader/vmem.c:126-146 | for every list and length the answer is the first fit if and only if they are sane; if not, nothing fits and the search takes a range that wraps, takes one below the start, or never ends |
| EfiRegions.GuardIsSane | efiloader/vmem.c:130-143 | a check on the regions before the call that makes list and length sane, and the search end |
| EfiRegions.FittingIsSane | efiloader/vmem.c:130-143 | whenever something fits, list and length are sane and the search ends |
| EfiRegions.EndlessExactly | efiloader/vmem.c:130-143 | the search runs for ever if and only if the ascents from the start and from 0 both reach the top; otherwise it ends with the answer of the first that does not |
| EfiRegions.BelowTopEnds | efiloader/vmem.c:130-143 | it does not go back if no region reaches into the last page |
| EfiRegions.EndlessList | efiloader/vmem.c:130-143 | an example: two regions that fill the address space |
| EfiPaging.PastTheTop | efiloader/vmem.c:126-146 | a call that hands out a range past the end although nothing fits |
| EfiPaging.BelowTheStart | efiloader/vmem.c:126-146 | a call that hands out address 0 although nothing fits |
| EfiPaging.FirstSumWraps | efiloader/vmem.c:126-146 | a call whose first sum wraps and that succeeds on the empty list |
| EfiPaging.Loader.GetChildEntry | efiloader/vmem.c:166-188 | the existing or a fresh zeroed child table; writes fresh pages only |
| EfiPaging.Loader.BuildPteForPage | efiloader/vmem.c:190-232 | maps one page, writable: the leaf map changes there only; aborts only on misalignment; writes fresh pages only |
| EfiPaging.Loader.BuildPteForRegion | efiloader/vmem.c:234-258 | maps exactly the pages of the region from its start hole on, all writable |
| EfiPaging.PageMapIsWanted | efiloader/vmem.c:101-107 | for disjoint aligned regions the map of all pages is what the list calls for at every address |
| EfiPaging.Loader.BuildPageTables | efiloader/vmem.c:260-296 | on success the hardware walk of every address outside slot 511, writable where it is present, is what the list of regions calls for, and only pages handed out by the allocator were written |
| EfiPaging.BuiltWalk | efiloader/vmem.c:101-107 | the walk of the built tables equals the region list's translation past the start hole, writable, and not-present elsewhere |
| EfiPaging.BuiltWindow | efiloader/vmem.c:288-291 | the window address of every mapped page reaches the entry that holds its frame; the last page reaches the top table |
| BitmapAllocator.SetBit | tload/memmgr.c:173-179 | or-ing the shifted bit marks one page and leaves all others |
| BitmapAllocator.ClearBit | tload/memmgr.c:181-187 | and-ing the complement clears one page and leaves all others |
| BitmapAllocator.Bitmap.Set | tload/memmgr.c:173-179 | the words then stand for the same set of pages with this one added |
| BitmapAllocator.Bitmap.Unset | tload/memmgr.c:181-187 | the same set with this page removed |
| BitmapAllocator.Bitmap.IsSet | tload/memmgr.c:189-191 | whether the page is in the set |
| BitmapAllocator.Bitmap.IsFree | tload/memmgr.c:88-101 | whether all pages of the range are clear, the address wrapping at 4 GiB as the code's does |
| BitmapAllocator.Bitmap.MallocFixed | tload/memmgr.c:111-120 | marks exactly the pages of the range |
| BitmapAllocator.Bitmap.MallocAlign | tload/memmgr.c:122-148 | the lowest multiple of the alignment whose pages are all clear, marking exactly those and never wrapping; NULL exactly when no multiple qualifies or a size is not a page multiple |
| TloadPaging.Mapper.constructor | tload/vmem.h:32 | the top table starts zeroed with its recursive entry |
| TloadPaging.Mapper.NewPage | tload/vmem.c:106-111 | a page that was clear, now marked and zero-filled; none only when all pages are used |
| TloadPaging.Mapper.GetTable | tload/vmem.c:83-133 | the table below an entry, existing or fresh; existing tables stay where they are, no two share a page |
| TloadPaging.Mapper.GetPage | tload/vmem.c:83-133 | the frame of a page: the caller's, the one mapped already, or a fresh one; the leaf map changes at that page only, where the page is writable if this call asks for it or it was and is not overwritten |
| TloadPaging.Mapper.CreateVirtualMapping | tload/vmem.c:46-76 | returns frame plus offset, keeps every other page's frame, and returns the same frame for a page mapped already |
| TloadPaging.OtherPagesKept | tload/vmem.c:52-76 | the hardware walk of every other page is unchanged, that of the mapped page is its frame plus offset with the leaf's permission |
| TloadPaging.MapAll | tload/vmem.c:46-133 | over any run of mapping calls the leaf map is the replay of the calls served, fresh frames are pairwise different, a call is left unserved only when every page is used, and if the frames brought along are marked used no fresh frame is one of them or a table page |
| TloadPaging.WritableExactly | tload/vmem.c:83-133 | over any run of mapping calls a page is writable if and only if some call since its entry was last overwritten asked for that, or it was at the start and was never overwritten |
| TloadPaging.WalkRights | tload/vmem.c:46-133 | the hardware walk of a page mapped by the run reaches its frame and is writable in exactly these cases |
| Grammar.Forward | tyc/Parser2.cs:144-192 | every derivation of an original symbol has a derivation with the same yield in the rewritten grammar |
| Grammar.Backward | tyc/Parser2.cs:144-192 | and the other way round |
| Grammar.LanguagePreserved | tyc/Parser2.cs:130-192 | removing immediate left recursion from every rule preserves the language of every original nonterminal, for every grammar in which no primed name is defined or used |
| Recognizer.Group | tyc/Parser2.cs:146-158 | the alternatives that begin with the rule's own name and the others, each in order |
| Recognizer.BuildHead | tyc/Parser2.cs:171-177 | the alternatives of the rewritten rule |
| Recognizer.BuildTail | tyc/Parser2.cs:179-188 | the alternatives of the primed rule |
| Recognizer.Parser.RemoveImmediateLeftRecursion | tyc/Parser2.cs:144-192 | adds the replacement of one rule; a clash of names is the only failure |
| Recognizer.Parser.RemoveLeftRecursion | tyc/Parser2.cs:130-142 | the grammar becomes its transform exactly when no primed name clashes with a defined one |
| Recognizer.UndefinedPrimeMatters | tyc/Parser2.cs:167-192 | an example: a primed name that is used but not defined changes the language |
| Recognizer.ParseEntry | tyc/Parser2.cs:24-42 | where the longest match of a rule from a position ends |
| Recognizer.ParseAlt | tyc/Parser2.cs:44-80 | where one alternative ends, or its start on any failure; `GreedyMatch.AltExactly` says by positions which |
| Recognizer.DeeperEntry | tyc/Parser2.cs:24-42 | a result reached within one recursion depth is the result at every larger depth |
| Recognizer.DeepEnough | tyc/Parser2.cs:24-80 | where no rule reaches itself through leading entries, one level per rule and token suffices, so the recursion ends |
| Recognizer.NeverDeepEnough | tyc/Parser2.cs:24-80 | an example: a rule that leads to itself is too deep at every depth |
| Recognizer.SoundEntry | tyc/Parser2.cs:24-80 | what a match covers is derivable from the entry |
| Recognizer.LongestIsMaximal | tyc/Parser2.cs:30-36 | no alternative reaches further than the rule does |
| Recognizer.ParseTokens | tyc/Parser2.cs:10-22 | the verdict of the outer loop, which `GreedyMatch.AcceptedExactly` characterises |
| Recognizer.AcceptedIsConcatenation | tyc/Parser2.cs:10-80 | an accepted token list is a concatenation of nonempty strings derivable from the start entry |
| Recognizer.ConcatenationBefore | tyc/Parser2.cs:130-192 | and each is derivable in the grammar before the rewriting |
| Recognizer.LeftRecursiveNeverMatches | tyc/Parser2.cs:24-80 | after the rewriting a left-recursive rule never consumes a token, in any grammar and at any position |
| GreedyMatch.AltExactly | tyc/Parser2.cs:44-80 | an alternative that is settled either reaches its end over positions where each symbol starts before the end of the tokens, takes one fitting token, nothing, or goes as far as its rule leads, or is blocked and gives back its start; the recognizer finds just that |
| GreedyMatch.EntryExactly | tyc/Parser2.cs:24-42 | the recognizer finds a position for a rule if and only if the rule leads there: an alternative reaches it and none reaches further |
| GreedyMatch.AcceptedExactly | tyc/Parser2.cs:10-22 | accepted exactly if nonempty greedy matches of the start rule, one after the other, cover the tokens; rejected exactly if they are held up |
| Recognizer.Recognise | tyc/Parser2.cs:10-192 | rewriting and recognizing together: what is accepted is in the original language; from a left-recursive start rule no token list but the empty one is accepted |
| TydbWriter.Writer.GetStringTableOffset | tydbfile/Writer.cs:59-77 | the id reads back as the text up to its first NUL; a text is in the table with this id afterwards and no other entry changes; the string section is one NUL and then each distinct text once, in order |
| TydbWriter.Writer.WriteLocation | tydbfile/Writer.cs:187-227 | the id stands for the location with all nested ones, which have smaller ids; it is in the cache afterwards with this id; a cached one adds nothing |
| TydbWriter.Writer.WriteVarArg | tydbfile/Writer.cs:179-185 | appends a record that stands for the name and location |
| TydbWriter.Writer.WriteLines | tydbfile/Writer.cs:171-177 | appends records that stand for the lines |
| TydbWriter.Writer.WriteFunction | tydbfile/Writer.cs:118-144 | appends a record that stands for the function and all its lists, and keeps what all earlier records stand for |
| TydbWriter.Writer.Write | tydbfile/Writer.cs:79-169 | a file below 2 GiB represents what a file can keep of the input; its size is that of the records plus each distinct location and each distinct text once, and it ends in exactly these texts |
| TydbTables.EachTextOnce | tydbfile/Writer.cs:59-77 | of any list of texts asked for, each non-null one is stored once and no other |
| TydbTables.OffsetsApart | tydbfile/Writer.cs:59-77 | different texts have different ids |
| TydbTables.EachLocationOnce | tydbfile/Writer.cs:187-227 | of any list of locations, each and each one nested in it is stored once, and no other |
| TydbFormat.PlainFileKept | tydbfile/Writer.cs:59-77 | a file can keep all of its input exactly when every text is non-null and NUL-free and every length is a byte |
| TydbReader.Reader.GetString | tydbfile/Reader.cs:60-77 | reads the text an id stands for and restores the position |
| TydbReader.Reader.ReadLocation | tydbfile/Reader.cs:165-200 | reads the location an id stands for, recursion depth bounded by the id; restores the position |
| TydbReader.Reader.ReadLines | tydbfile/Reader.cs:124-135 | reads back the lines the records stand for |
| TydbReader.Reader.ReadVars | tydbfile/Reader.cs:137-155 | reads back the variables the records stand for |
| TydbReader.Reader.ReadFunction | tydbfile/Reader.cs:109-159 | reads back the function a record stands for |
| TydbReader.Reader.Read | tydbfile/Reader.cs:85-163 | data that represents a file reads as that file; a wrong magic number or version is refused |
| TydbReader.FileUnique | tydbfile/Reader.cs:85-200 | the same data represents at most one file |
| TydbRoundTrip.RoundTrip | tydbfile/Writer.cs:55-227 | below 2 GiB, reading what was written gives what a file can keep, and the very same file exactly when that is everything; the size is known from the input |
| Division.Normalise | grub-loader/udivmoddi4.c:177-202 | the halves set up for the loop are the dividend shifted right and left by the chosen amount, for shifts below, at and above a word |
| Division.SignMaskCompares | grub-loader/udivmoddi4.c:250-259 | the sign mask is the comparison of remainder and divisor, also for divisors with the top bit set |
| Division.SignMaskNeedsLargeRemainder | grub-loader/udivmoddi4.c:257 | an example where the mask alone would be wrong, so the proof has to rule it out |
| Division.Step | grub-loader/udivmoddi4.c:243-260 | one turn of the loop yields one more bit of the quotient and the remainder that goes with it |
| Division.ShiftSubtract | grub-loader/udivmoddi4.c:242-261 | the whole loop divides |
| Division.DivideByWide | grub-loader/udivmoddi4.c:91-152 | every branch for divisors with an upper half divides |
| Division.DivideByGeneral | grub-loader/udivmoddi4.c:204-234 | the branches that choose a shift from leading zeros divide |
| Division.DivideByNarrow | grub-loader/udivmoddi4.c:153-203 | every branch for one-word divisors divides |
| Division.UDivModDi4 | grub-loader/udivmoddi4.c:57-265 | for all 64-bit a and nonzero b, a is quotient times b plus remainder, and the remainder is below b |
| Mangling.EncodeStringInverse | libstdcs/Mangler.cs:284-309 | escaping can be undone, and only the escaped text gives a text back |
| Mangler.Encode | libstdcs/Mangler.cs:284-309 | computes the escaped text |
| Mangler.Builder.AppendWithLength | libstdcs/Mangler.cs:278-282 | appends the length and the text |
| Mangler.Builder.MangleName | libstdcs/Mangler.cs:230-275 | appends the code of a named type, by `ManglingShortest.NameShortest` a shortest one but for the exception, and leaves the module and namespace state that code implies |
| Mangler.Builder.MangleType | libstdcs/Mangler.cs:81-276 | appends the code of a type under the current state; fails exactly on types without a code |
| Mangler.MangleMethod | libstdcs/Mangler.cs:45-79 | a symbol exactly for methods without variable arguments whose types have codes; it decodes to the signature, and no text that does is shorter but for nine characters per overlooked code |
| ManglingDecodable.NameDecodes | libstdcs/Mangler.cs:230-275 | a decoder that tracks the same state recovers the name, and ends in the same state |
| ManglingDecodable.TypeDecodes | libstdcs/Mangler.cs:81-276 | and every type, in front of anything that cannot be taken for its continuation |
| ManglingDecodable.ParametersDecode | libstdcs/Mangler.cs:63-74 | and the parameter list with the this-flag |
| ManglingDecodable.MethodDecodes | libstdcs/Mangler.cs:45-79 | the mangled name decodes to declaring type, name, return type, this-flag and parameters |
| ManglingDecodable.MangleInjective | libstdcs/Mangler.cs:45-79 | two methods with the same mangled name have the same signature |
| ManglingDecodable.MethodSpellingDecodes | libstdcs/Mangler.cs:45-79 | the text with no code overlooked also decodes to the signature |
| ManglingShortest.OnlyCodes | libstdcs/Mangler.cs:230-275 | the decoder reads a name from its five codes and from nothing else |
| ManglingShortest.CodesLeast | libstdcs/Mangler.cs:236-275 | which of the codes for a name in a state is the shortest; one as short is a code for a fixed module used although the module is the current one |
| ManglingShortest.NameShortest | libstdcs/Mangler.cs:236-275 | for every state and name no text that decodes to the name is shorter than the one written, if and only if it is not the case of libsupcs.libsupcs after another namespace of libsupcs |
| ManglingShortest.MethodLeast | libstdcs/Mangler.cs:45-276 | no text that decodes to a signature is shorter than the text with no code overlooked |
| ManglingShortest.MangledLength | libstdcs/Mangler.cs:45-276 | the symbol of a method is longer than the shortest text for its signature by nine characters for each name of libsupcs.libsupcs that follows another namespace of libsupcs |
| ManglingShortest.MangledShortest | libstdcs/Mangler.cs:45-276 | it is the shortest if and only if there is no such name |
| ManglingShortest.OverlookedExample | libstdcs/Mangler.cs:236-249 | an example: twelve characters where three would do |
| ManglingSymbols.AttributeSymbol | tools/CMExplorer/CMExpLib/Layout.cs:47 | an attribute's constructor has the symbol the layout tool compares with |
| ManglingSymbols.SpinlockSymbol | tysos/x86_64/cpu.asm:2-4 | the spin lock has the symbol its assembler code defines |
| TriePalette.Palette.PopulateReverse | tytrie/Palette.cs:43-49 | the dictionary gives each character its last index |
| TriePalette.ReverseIs | tytrie/Palette.cs:51-52 | the index of a character leads back to it, and every character of the palette has one |
| TriePalette.Bijection | tytrie/Palette.cs:51-52 | index and character are inverse both ways exactly when no character is repeated |
| SymbolTrie.EndInjective | tytrie/Trie.cs:75-83 | different names end at different tiers |
| SymbolTrie.Trie.constructor | tytrie/Trie.cs:48-57 | an empty trie over the given palette and its reverse dictionary |
| SymbolTrie.Trie.SetChild | tytrie/Trie.cs:79-88 | hangs one new tier, keeps the tree and changes at most that symbol |
| SymbolTrie.Trie.AddSymbol | tytrie/Trie.cs:59-93 | the mapping of names to values changes at that name only, and only if it is new or may be overwritten, which is what is returned; names the palette cannot spell go to the dictionary |
| TrieImage.WriteTrie | tytrie/Trie.cs:203-235 | a tier's table is appended: values of terminal children, offsets of the others, 0 for none; fails only on a child without offset or an unknown bitness |
| TrieImage.PostOrderTraverse | tytrie/Trie.cs:111-125 | afterwards every table below the tier is in the file at the offset its tier remembers, offsets elsewhere are unchanged, and below 2 GiB the missing-offset exception is not raised |
| TrieImage.EntryAt | tytrie/Trie.cs:213-234 | the number read i entry widths into a table is entry i, cut to the width |
| TrieImage.WalkName | tytrie/Trie.cs:59-93 | following a name's indices through the file reaches its tier's table, or 0 if there is no such tier |
| TrieImage.LookupFinds | tytrie/Trie.cs:127-164 | looking a NUL-free name up in the file gives the symbol's value cut to the width, and 0 for absent ones |
| TrieTail.TailLists | tytrie/Trie.cs:175-200 | entry k of the table of names leads to the text, cut to bytes, of the k-th name the palette cannot spell, and holds its value |
| TrieImage.Write | tytrie/Trie.cs:127-201 | the file has the header, the palette at the offset and of the size it gives, answers every name the palette can spell as the trie does, and has one table entry for every other symbol, with its text cut to bytes and its value |
| TrieImage.AddAll | tytrie/Trie.cs:59-93 | after any run of additions the trie and the dictionary agree with a plain map under first-wins or overwrite |
| TrieReader.NamesReadBack | tytrie/Trie.cs:175-200 | from the bytes alone: every plain name the palette cannot spell is listed exactly if it is in the dictionary, and with its value, if and only if no name of the dictionary is left with the text of another plain name that is missing or has another value |
| TrieReader.PlainIsClear | tytrie/Trie.cs:175-184 | that is so if all such names have characters from 1 to 255 |
| TrieReader.Collide | tytrie/Trie.cs:180-181 | an example: two names with the same text |
| TrieImage.Build | tytrie/Trie.cs:59-201 | the file written after any run of additions answers every name the palette can spell as that plain map does, and names the others so that they read back as in the map if and only if none is read back as another |
| Events.Event.IsSet | tysos/Event.cs:51-72 | whether the event is set; latching on a message does not change that |
| Events.Event.Set | tysos/Event.cs:74-77 | the event is set |
| Events.Event.Reset | tysos/Event.cs:79-82 | the event is set only by a waiting message |
| Events.IsSet | tysos/Event.cs:95-125 | a nested wait answers as the values of its leaves say, and asking changes no event's value |
| Events.Monotone | tysos/Event.cs:95-125 | setting more events never undoes a wait that is over |
| Events.OnlyLeaves | tysos/Event.cs:95-125 | a wait depends on its leaves only |
| Events.AnyMeets | tysos/Event.cs:95-125 | a wait for any, however nested, is over exactly if one of its events is set |
| Events.AllWithin | tysos/Event.cs:95-125 | a wait for all, however nested, is over exactly if every one of its events is set |
| ThreadQueues.ReleasedPlaced | tysos/Scheduler.cs:65-75 | releasing keeps every thread exactly once in the collection its location names and in no other |
| ThreadQueues.RescheduledPlaced | tysos/Scheduler.cs:51-62 | so does rescheduling, to whatever priority |
| ThreadQueues.BlockedPlaced | tysos/Scheduler.cs:165-199 | so does blocking |
| ThreadQueues.AsleepPlaced | tysos/Scheduler.cs:201-210 | so does sleeping |
| ThreadQueues.StrayPlaced | tysos/Scheduler.cs:51-62 | rescheduling to a priority without a queue breaks the placement, unless its number stands for no collection |
| ThreadQueues.WakeIs | tysos/Scheduler.cs:112-146 | the scan keeps the threads that are not ready in order, appends the ready ones to the queues of their priorities in order, and touches no other |
| ThreadQueues.NoneLeftReady | tysos/Scheduler.cs:112-146 | after the scan no ready thread is blocked; each is in the queue of its priority |
| ThreadQueues.BlockedBehind | tysos/Scheduler.cs:165-199 | a thread that blocks comes after all threads that are blocked, and those keep their order |
| ThreadQueues.WakesInOrder | tysos/Scheduler.cs:112-146 | of two threads of one priority woken by a scan the one blocked first is queued first |
| DeltaQueues.DeltaQueue.Remove | tysos/collections/Lists.cs:213-221 | removes the first occurrence; tolerates absence |
| DeltaQueues.RemovedDue | tysos/collections/Lists.cs:278-299 | the sum of the deltas up to every other sleeper stays the same |
| DeltaQueues.DeltaQueue.InsertAtDelta | tysos/collections/Lists.cs:314-338 | where the new node goes and what its delta ends up as |
| DeltaQueues.InsertedDue | tysos/collections/Lists.cs:314-338 | the sum of the deltas up to every other sleeper stays the same |
| DeltaQueues.InsertedDueItself | tysos/collections/Lists.cs:314-338 | the sum at the new sleeper is its delay at the end of the queue, and the sum at the one before it otherwise |
| DeltaQueues.WokenBySum | tysos/collections/Lists.cs:341-374 | in any queue and over any positive ticks, whether a sleeper has woken depends on the time elapsed alone, and how |
| DeltaQueues.LeaveAtHead | tysos/collections/Lists.cs:341-374 | sleepers leave in the order of the queue |
| DeltaQueues.AwakeExactly | tysos/collections/Lists.cs:341-374 | in any queue a sleeper has woken exactly when the time has reached a time computed from the deltas: its own sum, or just past the largest sum before it |
| DeltaQueues.WakesAtSum | tysos/collections/Lists.cs:341-374 | where no delta is negative that time is the sum of the deltas |
| DeltaQueues.InsertedWakes | tysos/collections/Lists.cs:314-338 | in any queue: a sleeper put between two others wakes with the one before it, one put at the end at its own time or just past the largest sum |
| DeltaQueues.OnTimeExactly | tysos/collections/Lists.cs:314-374 | in any queue a new sleeper wakes at the first tick at which its own delay is over if and only if a condition on queue and delay holds |
| DeltaQueues.InsertedNonNegative | tysos/collections/Lists.cs:314-338 | inserting keeps the deltas non-negative unless a shorter delay is put at the end |
| DeltaQueues.OverSleeps | tysos/collections/Lists.cs:323-328 | an example of a sleeper between two others that wakes too late |
| DeltaQueues.OverSleepsAtEnd | tysos/collections/Lists.cs:331-337 | an example of one at the end that wakes too late |
| DeltaQueues.WakesEarly | tysos/collections/Lists.cs:323-328 | an example of one that wakes too early |
| DeltaQueues.DeltaQueue.GetZero | tysos/collections/Lists.cs:341-354 | takes the first sleeper exactly when it is due |
| DeltaQueues.DeltaQueue.DecreaseDelta | tysos/collections/Lists.cs:356-374 | the deltas after time has passed |
| DeltaQueues.DecreasedDue | tysos/collections/Lists.cs:356-374 | in any queue: the sum up to a node is zero once its largest sum is passed, and that much smaller otherwise |
| SleepRuns.OnTimeRun | tysos/Scheduler.cs:201-251 | over any run of threads going to sleep, being released and ticks: after every operation the next tick wakes exactly the threads whose delay is over, if and only if each thread met the condition when it went to sleep |
| SleepRuns.NonNegativeRun | tysos/collections/Lists.cs:278-374 | over any run no delta is ever negative if and only if no thread is put at the end with a shorter delay than the queue's |
| Scheduler.Scheduler.constructor | tysos/Scheduler.cs:38-48 | all collections empty, the invariant holds |
| Scheduler.Scheduler.Release | tysos/Scheduler.cs:65-75 | the thread leaves the collection its location names |
| Scheduler.Scheduler.Requeue | tysos/Scheduler.cs:51-62 | the thread goes to the end of its priority's queue with a full slice and no events; a priority without a queue fails after the thread has left its old place |
| Scheduler.Scheduler.Deschedule | tysos/Scheduler.cs:149-155 | the released queues, the invariant kept |
| Scheduler.Scheduler.Reschedule | tysos/Scheduler.cs:157-163 | the rescheduled queues, the invariant kept whatever the priority was while it was queued; for a priority without a queue it fails, and exactly when the invariant survives |
| Scheduler.Scheduler.Block | tysos/Scheduler.cs:165-183 | blocked on a new event that waits for a message to the thread's process |
| Scheduler.Scheduler.BlockOn | tysos/Scheduler.cs:185-199 | blocked on the given wait, the invariant kept |
| Scheduler.Scheduler.Sleep | tysos/Scheduler.cs:201-210 | in the sleeping queue where its delay is inserted, also for a thread that is asleep already; the invariant kept |
| Scheduler.Scheduler.WakeUpBlockingTasks | tysos/Scheduler.cs:112-146 | terminates and is the scan of the threads whose events are all set; no event's value changes |
| Scheduler.Scheduler.GetNextThread | tysos/Scheduler.cs:94-110 | the first thread of the highest non-empty queue after the scan; every thread whose events were all set is runnable |
| Scheduler.Scheduler.NextThread | tysos/Scheduler.cs:78-91 | the same thread, charged for the time or sent to the back |
| Scheduler.Scheduler.ScheduleNext | tysos/Scheduler.cs:212-226 | the thread to switch to, none if it is the current one |
| Scheduler.Scheduler.WakeSleeper | tysos/Scheduler.cs:239-244 | a due sleeper is rescheduled although it has left the sleeping queue already |
| Scheduler.Scheduler.TimerTick | tysos/Scheduler.cs:228-251 | the due sleepers leave the sleeping queue and are rescheduled in order, then the blocked threads are scanned, then the next thread has its turn; the invariant is kept |
| SchedulerRuns.StepConsistent | tysos/Scheduler.cs:149-251 | every operation, with priorities and events changing in between, keeps each thread where its location says |
| SchedulerRuns.After | tysos/Scheduler.cs:149-251 | so does every run |
| SchedulerRuns.NoLostWakeUp | tysos/Scheduler.cs:165-199 | in every run, a thread whose wait is over at some point before or after it blocks, with none of its events reset from then on, is runnable after the next choice of a thread |
| RoundRobin.TurnsIsCeiling | tysos/Scheduler.cs:84-87 | the number of turns is the time divided by ns, rounded up |
| RoundRobin.FirstReturn | tysos/Scheduler.cs:78-110 | if no thread ahead has a higher priority, the thread at position j is returned first by the call whose number is the sum of the turns ahead of it |
| RoundRobin.BoundedWaiting | tysos/Scheduler.cs:78-110 | it is ever returned if and only if no thread ahead has a higher priority |
| RoundRobin.Starved | tysos/Scheduler.cs:51-62 | one ahead with a higher priority keeps it from ever being returned |
| RoundRobin.FullRotation | tysos/Scheduler.cs:78-110 | with no priority above the queue, a rotation returns each thread for its turns in order, leaves all slices full and in the queue the threads whose queue it is |
| RoundRobin.LaterRotation | tysos/Scheduler.cs:78-110 | in every rotation after the first, each thread of the queue is returned its default slice divided by ns, rounded up, times, and no other is |
| RoundRobin.ShiftsCount | tysos/Scheduler.cs:78-91 | in a rotation each thread is returned exactly as often as it has turns |
| RoundRobin.TickIsTurn | tysos/Scheduler.cs:78-91 | a call on the scheduler's queues is a turn |
| RoundRobin.TicksAreRun | tysos/Scheduler.cs:78-91 | any number of calls is that number of turns |
| RoundRobin.SchedulerBoundedWaiting | tysos/Scheduler.cs:78-146 | the bound for repeated calls of the scheduler, wake scan included, while no blocked thread is ready; never otherwise |
| Rpc.ValidStep | tysos/ServerObject.cs:117-245 | every access of every client and server keeps: messages in order, each request in one place, results set only after they hold the value |
| Rpc.InvokedOnceInOrder | tysos/ServerObject.cs:196-205 | in every run a server invokes a prefix of the requests sent to it, which `RpcOrder` ties to the order of the steps, and no request is invoked twice by any server |
| Rpc.SyncReturnsOwnValue | tysos/ServerObject.cs:78-87 | in every run Sync returns only a value that the invocation of that very request returned |
| RpcOrder.MailboxIs | tysos/ServerObject.cs:139-158 | in every run, from the steps alone: the requests sent to a server are those that found fewer than capacity earlier ones unread, in the order of the steps, and those begun are the ones its reads began |
| RpcOrder.FirstInFirstOut | tysos/ServerObject.cs:196-205 | in every run the requests a server has begun are the first accepted ones, in the order of the steps that sent them; an idle server that reads begins the next, if there is one |
| RpcOrder.NeverBefore | tysos/ServerObject.cs:139-205 | of two requests accepted by a server the later is never begun before the earlier |
| RpcOrder.ServeCompletes | tysos/ServerObject.cs:196-245 | an idle server that reads and goes on completes the first request in line with the value its method returns |
| RpcOrder.SyncReturns | tysos/ServerObject.cs:78-87 | once the event is set Sync returns, with the value of its request's invocation |
| RpcOrder.CallCompletes | tysos/ServerObject.cs:78-245 | the two together: serving and then waiting gives the value the method returned |
| RpcRuns.CallbackByOrder | tysos/ServerObject.cs:89-112 | in every run, from the order of the steps alone: a callback has never run exactly if it was tested before the event was set and a rival was registered before Set looked; twice exactly if it was tested after the event was set, was stored before Set looked and had no rival; else once |
| Rpc.CallbackRuns | tysos/ServerObject.cs:89-112 | in every interleaving, once SetCallback and Set are done, how often the callback has run and with what value; never exactly if it was replaced and saw nothing set |
| Rpc.SoleNotReplaced | tysos/ServerObject.cs:89-112 | with one SetCallback on a result its callback is not replaced, so it has run |
| Rpc.ReplacedNeverRuns | tysos/ServerObject.cs:91-95 | a run in which a second SetCallback takes the first one's place and the first never runs |
| Ring.CapacityIs | tysos/collections/RingBuffer.cs:27-39 | a ring holds at least half and less than all of what there is room for |
| Ring.RingBuffer.constructor | tysos/collections/RingBuffer.cs:16-40 | empty, with one less than the largest power of two as capacity |
| Ring.RingBuffer.Enqueue | tysos/collections/RingBuffer.cs:43-72 | appends, and refuses exactly when full |
| Ring.RingBuffer.Dequeue | tysos/collections/RingBuffer.cs:75-104 | takes the oldest, and has none exactly when empty |
| RingProtocol.StepKept | tysos/collections/RingBuffer.cs:43-104 | every atomic step of any thread whose claim is sound keeps: each value is in its slot, in one thread's hands or delivered as it was put |
| RingProtocol.UnsoundSucceeds | tysos/collections/RingBuffer.cs:43-104 | what callers see of an unsound claim: in every run from there the put succeeds though the ring was full, or the take though it was empty |
| RingProtocol.UnsoundBreaks | tysos/collections/RingBuffer.cs:43-104 | an unsound claim breaks the bounds of the ring at once |
| RingProtocol.OrderExactly | tysos/collections/RingBuffer.cs:43-104 | a run of any threads keeps it after every step if and only if every successful claim finds a free slot, or a published value |
| RingProtocol.CalmIsSound | tysos/collections/RingBuffer.cs:49-62 | a claim is sound unless the thread was overtaken between its two reads |
| RingProtocol.ExclusiveDelivers | tysos/collections/RingBuffer.cs:43-104 | every interleaving without two puts or two takes at once is sound, so no value is lost, doubled, changed or out of order |
| RingProtocol.RefusalsAreRight | tysos/collections/RingBuffer.cs:54-58 | in such a run a put is refused exactly when the ring was full, and a take exactly when it was empty, as the call looked |
| RingProtocol.AtRest | tysos/collections/RingBuffer.cs:43-104 | with no call under way, the values taken are the first ones put, and the others are in their slots in order |
| RingProtocol.PutAlone | tysos/collections/RingBuffer.cs:43-72 | the steps of an uninterrupted put together append, or refuse when full |
| RingProtocol.TakeAlone | tysos/collections/RingBuffer.cs:75-104 | the steps of an uninterrupted take together take the oldest value, or none when empty |
| RingProtocol.OverfullLooksEmpty | tysos/collections/RingBuffer.cs:49-62 | a producer overtaken while the ring filled up succeeds, and the full ring then has nothing to take |
| RingProtocol.TakesNothing | tysos/collections/RingBuffer.cs:81-94 | a consumer overtaken while the ring emptied takes a value nobody put |
| RingProtocol.TwoProducers | tysos/collections/RingBuffer.cs:43-72 | a run of two producers and a consumer in which three puts succeed, one value is taken and the next take finds nothing |
| RingProtocol.TwoConsumers | tysos/collections/RingBuffer.cs:75-104 | a run of two consumers and a producer in which two values are taken though one was put |
| PhysMem.TwoLevelStack.constructor | tysos/PhysMem.cs:213-266 | the region is cut into aligned disjoint blocks that add up to its length rounded down, each ring keeps the first blocks it has room for, and all is kept exactly when both kinds fit |
| PhysMem.NothingLost | tysos/PhysMem.cs:239-258 | free space is the whole length rounded down if and only if the counts of blocks are within the capacities |
| PhysMem.ThreePages | tysos/PhysMem.cs:220-244 | an example: three pages leave two blocks and room for one |
| PhysMem.ThreeGigabytes | tysos/PhysMem.cs:246-251 | an example: 1532 large blocks, room for 1023 |
| PhysMem.SmallGiven | tysos/PhysMem.cs:280-282 | handing out a small block keeps all blocks disjoint, aligned, inside, and their total |
| PhysMem.LargeGiven | tysos/PhysMem.cs:314-316 | so does handing out a large block |
| PhysMem.BrokenGiven | tysos/PhysMem.cs:285-303 | so does breaking a large block up |
| PhysMem.TwoLevelStack.Allocate | tysos/PhysMem.cs:273-320 | over any run of calls free and handed-out blocks stay disjoint, aligned, inside and of the same total; a small request gets 0 exactly when nothing is free |
| PhysMem.TwoLevelStack.KeepPieces | tysos/PhysMem.cs:294-295 | the small ring takes all pieces of a broken block, none is lost there |
| PhysMem.TwoLevelStack.FreeSpace | tysos/PhysMem.cs:327 | free space and what was handed out add up to the initial free space |

## Left out

- The EFI loader's `allocate`, which rounds a length and asks the firmware for pages before `allocate_any`; the model starts at `allocate_any`.
- EfiPaging.Loader.AllocateAny: the regions already in the list are neither empty nor wrapping, and lists and lengths for which the loop never ends (`EfiRegions.EndlessExactly`) cannot be given.
- tload's list of allocations (`add_linked_list`), whose first node's back link is never initialised.
- tload's `mark_used` and `mark_free` on starts that are not page-aligned or above 4 GiB.
- Recognizer.ParseEntry: recursion is cut off at a depth given by the caller and reported as too deep; `DeeperEntry` shows that any other result does not depend on it and `DeepEnough` which depth suffices. A rule that leads to itself sends the original into endless recursion.
- Recognizer.Recognise: does not itself say which token lists are accepted, apart from those of left-recursive start rules; `GreedyMatch.AcceptedExactly` does, in terms of greedy matches, which need not accept all of the language.
- Reading the grammar text, the preprocessor and the older parser.
- tydb: texts are the bytes of their UTF-8 form; the key a location is cached under is the location itself; the dictionary from compiled to source offsets that the reader also fills.
- TydbReader.Reader.ReadLocation: recursion is bounded by a depth, which for written files the id bounds; data with circular locations is reported instead of read for ever.
- Mangler.Builder.MangleType: arrays with a rank other than one-dimensional zero-based are not modelled, since their bounds are not written; a generic type's definition is a named type.
- ManglingDecodable.MangleInjective: names do not begin with a digit; the decoder is the model's own, since the repository has none.
- SymbolTrie.Trie.AddSymbol: names contain no NUL.
- TrieImage.Write: the stream starts at position 0; files of 2 GiB and more, whose offsets do not fit.
- Events that ask a delegate or a process name; an event's mailbox is fixed when the event is made, and nested waits are trees.
- Scheduler.Scheduler.WakeUpBlockingTasks: this and the operations that choose a thread require priorities inside the table of queues; what happens otherwise is stated of `Reschedule`.
- SchedulerRuns.StepConsistent: an operation on a thread that the scheduler was never told of, and a change to a priority without a queue, is no step.
- SleepRuns.OnTimeRun: delays are not negative, and a tick takes at least a nanosecond.
- Locks and interrupts in the scheduler: operations happen one after the other.
- Task switching.
- Rpc.ValidStep: each server has its own message queue and one message loop; every result is set on return; messages other than calls, and the wait for a server that has not entered its loop yet, are not modelled; blocking in Sync is waiting for the event.
- Ring.RingBuffer.Enqueue: one call after the other; `RingProtocol` has the interleavings.
- RingProtocol.StepKept: positions are unbounded, which with a power-of-two mask gives the slots of the 32-bit counters; a thread that sleeps through 2^32 claims, and memory that is not sequentially consistent, are not modelled; neither are `Peek` and `Count` between threads.
- PhysMem.TwoLevelStack.constructor: block sizes are the defaults, 4 KiB and 2 MiB, the only ones used; the region is shorter than 1 TiB, so that the ring lengths fit an int, and ends below the top of the address space.
- The one-level stack and the bitmap of the kernel's physical memory, the shared-memory queue, the bump allocators, ELF loading, the assembler and the other tools.
