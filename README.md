# A verified model of the early memory path of a small i386 kernel

This project models, in Dafny, the boot-time core of a small Linux-2.4-style
kernel for i386.

**Memory set-up**
- Turning the boot loader's Multiboot memory map (section 3.3 of the
  Multiboot Specification 0.6.96) into the capped `e820` region table. RAM is
  clipped out of the legacy hole, and a fixed two-region map is the fallback.
- Initialising the boot-memory bitmap.
- Setting up a node's zones: watermarks, offsets, page descriptors and
  per-order buddy bitmaps.
- Building the fallback zone lists.
- The buddy allocator's free path with its coalescing, and the free-page
  count.
- Building the kernel's two-level page tables: the direct map and the
  fixed-mapping slot.

**Helpers**
- The slab sizing arithmetic.
- Inserting into the I/O resource tree.
- The formatting core: `vsprintf`, `number` and `skip_atoi`.
- `strnlen` and `memset`.
- The `printk` ring buffer with its log-level prefixes.
- The 64-by-32 `do_div`.
- The IDT gate and TSS/LDT descriptor encoders.
- The soft-IRQ registration tables.

**Form of the model**
- Code that changes state step by step is imperative Dafny: classes over
  arrays and fields, methods with loops and invariants. Each method is
  proved against a specification function.
- Pure encodings are functions with lemmas: round trips, bounds,
  "if and only if" characterisations, and invariants that the operations
  keep.

**Module layout**

| module | file | models |
|---|---|---|
| `Words` | `words.dfy` | 32/64-bit wrap-around, signed views, powers of two, ceiling division, rounding |
| `Wrappers` | `wrappers.dfy` | `Option` |
| `PageDefs` | `pagedefs.dfy` | `PAGE_SIZE`, `PAGE_OFFSET`, `__pa`, and `__va` as its inverse |
| `MmZone` | `mmzone.dfy` | the node, zone, free-area and page-descriptor types |
| `Div64` | `div64.dfy` | `do_div` |
| `KString` | `kstring.dfy` | `strnlen`, `memset` |
| `Vsprintf` | `vsprintf.dfy` | `vsprintf`, `number`, `skip_atoi` |
| `Printk` | `printk.dfy` | `printk` |
| `E820` | `setup.dfy` | `add_memory_region`, `copy_multiboot_mmap`, `setup_memory_region` |
| `Bootmem` | `bootmem.dfy` | `init_bootmem_core`, `init_bootmem` |
| `PageAlloc` | `page_alloc.dfy` | `free_area_init_core`, `build_zonelists`, `__free_pages_ok`, `__free_pages`, `nr_free_pages` |
| `Buddy` | `buddy.dfy` | the buddy system's invariant (pair bits match the free lists, free blocks are disjoint, `free_pages` counts the listed pages), set up by `free_area_init_core` and kept by `__free_pages_ok` |
| `PageTable` | `pagetable.dfy` | `pagetable_init`, `fixrange_init` |
| `Slab` | `slab.dfy` | `kmem_cache_estimate`, `kmem_cache_init` |
| `Resource` | `resource.dfy` | `__request_resource`, `request_resource` |
| `Descriptors` | `descriptors.dfy` | the gate and system-descriptor encoders, `trap_init`, `__TSS`, `__LDT`, `load_TR`, `load_LDT` |
| `Softirq` | `softirq.dfy` | `init_bh`, `tasklet_init`, `open_softirq`, `softirq_init` |

**Modelling conventions**
- A pointer into `mem_map` is an index into the `memMap` array.
- A zone pointer is the zone's number in its node.
- A free list is a sequence of frame numbers, most recent first.
- A buddy bitmap is a sequence of booleans.
- A `BUG()` is a `bug` result (or the `Fatal` outcome), after which nothing
  is promised.
- Integer widths are explicit where the model tracks them:
  - an `unsigned long` counter wraps through `U32`;
  - 64-bit map arithmetic wraps through `U64`;
  - descriptor words are `bv32`;
  - `vsprintf`'s arguments are narrowed and sign-extended per qualifier.
- Signed `int` overflow in `vsprintf`'s field parsing and the `size_t`
  products of slab sizing are unbounded integers; "## Left out" lists them.


## Model

| member | source | states |
|---|---|---|
| Div64.DivideCorrect | include/asm-i386/div64.h:21-33 | the high word fed to `divl` is `high % base` (0 when `high` is 0) and below `base`, so the low quotient fits 32 bits; the high quotient word is `high / base`; the assembled quotient and the remainder are exactly `n / base` and `n % base` |
| Div64.DoDiv | include/asm-i386/div64.h:21-33 | `n` is replaced by `n / base` and the macro yields `n % base`, which is below `base` |
| KString.BoundedLengthMeaning | lib/string.c:13-22 | the length `strnlen` computes is at most `count`, every character before it is not NUL, and when it is below `count` it is the index of the first NUL |
| KString.BoundedLengthLocal | lib/string.c:13-22 | `strnlen` depends only on the first `count` characters: it inspects no more |
| KString.Strnlen | lib/string.c:13-22 | the pointer loop returns the smaller of `count` and the index of the first NUL |
| KString.Memset | lib/string.c:25-33 | exactly the `count` bytes from `s` become the low byte of `c`, every other byte is unchanged, and `s` is returned |
| PageDefs.PaVa | include/asm-i386/page.h:10 | below 1 GB, `__va` adds `PAGE_OFFSET` without wrapping and `__pa` (subtract `PAGE_OFFSET`) takes it back to the physical address |
| Vsprintf.FlagsUnion | lib/vsprintf.c:105 | `type & (ZEROPAD + LEFT)` is zero exactly when neither flag is set |
| Vsprintf.AdjustedFlags | lib/vsprintf.c:52-53 | under `LEFT` the `ZEROPAD` flag is cleared, and every other flag is kept |
| Vsprintf.DigitCharValue | lib/vsprintf.c:46-50 | the digit table (either case) maps each digit value below 36 to a character that reads back as that value |
| Vsprintf.LowDigitsStep | lib/vsprintf.c:97-98 | one `do_div` step emits the digit `n % base` and continues with `n / base` |
| Vsprintf.LowDigitsValue | lib/vsprintf.c:92-98 | the digits the loop stores, read most significant first, are the value converted |
| Vsprintf.DigitStringRoundTrip | lib/vsprintf.c:92-98 | round trip: the digit string `number` prints for `n` (with "0" for zero) reads back as `n` in its base |
| Vsprintf.NumberTextLength | lib/vsprintf.c:100-134 | the field `number` writes is `max(size, sign + prefix + max(precision, digits))` characters long |
| Vsprintf.NumberTextEndsWithDigits | lib/vsprintf.c:123-131 | without `LEFT` the field ends with the digit string of the magnitude, and those last characters read back as the magnitude |
| Vsprintf.LayoutPieces | lib/vsprintf.c:103-134 | the pieces `number` writes one after another (spaces, sign, prefix, fill, zeros, digits, trailing spaces) make up its layout |
| Vsprintf.NumberTextIsLayout | lib/vsprintf.c:58-101 | the sign, the prefix, the raised precision and the padding `number` computes determine its field |
| Vsprintf.PadLoop | lib/vsprintf.c:106-107 | `while (size-- > 0) *str++ = c;` appends `max(size, 0)` copies of `c` and leaves `size` at -1 or below |
| Vsprintf.ConvertDigits | lib/vsprintf.c:92-98 | the digit loop stores, least significant first, the digits whose reverse is the digit string of the magnitude |
| Vsprintf.ZeroFill | lib/vsprintf.c:127-128 | the precision loop appends `precision - i` zeros when that is positive |
| Vsprintf.CopyDigits | lib/vsprintf.c:130-131 | the stored digits are appended in reverse storage order |
| Vsprintf.EmitField | lib/vsprintf.c:103-134 | the writing half of `number` appends exactly the laid-out field |
| Vsprintf.Number | lib/vsprintf.c:42-137 | a base outside 2..36 returns null and writes nothing; otherwise exactly the specified field is appended |
| Vsprintf.Atoi | lib/vsprintf.c:22-32 | the cursor ends on the first non-digit, every character skipped is a digit, and the value never drops below what was accumulated |
| Vsprintf.AtoiValue | lib/vsprintf.c:22-32 | `skip_atoi` returns the decimal value of exactly the digits it skips |
| Vsprintf.LowDigitsDecimal | lib/vsprintf.c:92-98 | in base 10 `number` produces only the characters '0'..'9' |
| Vsprintf.AtoiDigitString | lib/vsprintf.c:22-32 | round trip with `number`: `skip_atoi` reads back a decimal field `number` wrote for `n`, as `n`, and stops after it |
| Vsprintf.SkipAtoi | lib/vsprintf.c:22-32 | the loop computes the value and the cursor that `Atoi` specifies |
| Vsprintf.ScanFlags | lib/vsprintf.c:168-188 | the `goto repeat` loop stops at the first non-flag character, after only flag characters |
| Vsprintf.ScanWidth | lib/vsprintf.c:191-204 | the width is -1 exactly when no width is given, never below -1, at most one argument is taken, and at most `LEFT` is added to the flags |
| Vsprintf.ScanPrecision | lib/vsprintf.c:218-231 | the precision is -1 exactly when no '.' follows, and is otherwise at least 0; at most one argument is taken |
| Vsprintf.ParseDirective | lib/vsprintf.c:168-250 | parsing a directive moves forward and takes at most two arguments |
| Vsprintf.NumArg | lib/vsprintf.c:349-372 | the value fetched for each qualifier (`L`, `l`, `Z`, `h`, none), narrowed and sign-extended under `SIGN`, lies in the signed 64-bit range |
| Vsprintf.Render | lib/vsprintf.c:254-347 | a conversion resumes just after its conversion character, or at the end of the format when the format ends after the `%` |
| Vsprintf.Step | lib/vsprintf.c:158-373 | one turn of the main loop consumes at least one format character |
| Vsprintf.ReadFlags | lib/vsprintf.c:168-188 | the flag loop computes the flags and position of `ScanFlags` |
| Vsprintf.ReadWidth | lib/vsprintf.c:191-204 | the width step computes `ScanWidth` |
| Vsprintf.ReadPrecision | lib/vsprintf.c:218-231 | the precision step computes `ScanPrecision` |
| Vsprintf.CharConv | lib/vsprintf.c:256-263 | `%c` writes `width - 1` spaces before the character, or after it under `LEFT` |
| Vsprintf.CopyChars | lib/vsprintf.c:275-276 | the copy loop appends exactly the first `len` characters |
| Vsprintf.StringConv | lib/vsprintf.c:265-279 | `%s` appends the string field: the string, or "<NULL>", cut by `strnlen` at the precision and padded to the width |
| Vsprintf.CharCase | lib/vsprintf.c:256-263 | the `c` case of the switch has the effect `Render` gives it |
| Vsprintf.StringCase | lib/vsprintf.c:265-279 | the `s` case of the switch has the effect `Render` gives it |
| Vsprintf.PointerCase | lib/vsprintf.c:281-289 | the `p` case prints eight zero-padded hex digits unless a width is given, as `Render` specifies |
| Vsprintf.IntBase | lib/vsprintf.c:317-339 | `o` is base 8, `x` and `X` base 16 (`X` adds `LARGE`), `d` and `i` base 10 with `SIGN`, `u` base 10 |
| Vsprintf.IntCase | lib/vsprintf.c:317-373 | the integer cases have the effect `Render` gives them |
| Vsprintf.RenderInt | lib/vsprintf.c:317-373 | an integer conversion appends `number`'s field for the fetched argument, in the conversion's base and flags, and takes one argument |
| Vsprintf.Convert | lib/vsprintf.c:254-347 | the conversion switch has the effect `Render` specifies for every conversion character |
| Vsprintf.IntConv | lib/vsprintf.c:349-373 | fetching the argument by qualifier and calling `number` appends `number`'s field for `NumArg` of it |
| Vsprintf.ReadDirective | lib/vsprintf.c:168-250 | parsing flags, width, precision and qualifier computes `ParseDirective` |
| Vsprintf.Conversion | lib/vsprintf.c:166-373 | one `%` directive, parsed and converted, is one `Step` of the format semantics |
| Vsprintf.StepConversion | lib/vsprintf.c:166-373 | a step at a `%` parses the directive after it and renders it |
| Vsprintf.Vsprintf | lib/vsprintf.c:146-377 | the buffer holds the formatted text followed by a NUL, the length returned excludes the NUL, and the `%n` positions are recorded |
| Vsprintf.FormatVerbatim | lib/vsprintf.c:160-163 | characters other than '%' are copied verbatim and take no argument |
| Vsprintf.FormatPlain | lib/vsprintf.c:158-163 | a format without '%' is its own output |
| Vsprintf.PercentPercent | lib/vsprintf.c:312-314 | "%%" writes one '%' and takes no argument |
| Vsprintf.UnknownConversion | lib/vsprintf.c:341-347 | an unknown conversion character is written back after a '%' |
| Vsprintf.TrailingPercent | lib/vsprintf.c:341-347 | a '%' that ends the format is written as is, and formatting stops |
| Vsprintf.NegativeStarWidth | lib/vsprintf.c:195-204 | a negative `*` width is taken by its absolute value and sets `LEFT` |
| Vsprintf.StringFieldText | lib/vsprintf.c:265-279 | `%s` prints the first `min(precision as unsigned, length)` characters, padded to the width on the side `LEFT` selects |
| Vsprintf.BareDirective | lib/vsprintf.c:168-250 | a conversion character right after the '%' leaves no flags, width, precision or qualifier |
| Vsprintf.NullString | lib/vsprintf.c:265-279 | a null `%s` argument prints "<NULL>" and takes one argument |
| Vsprintf.DecimalText | lib/vsprintf.c:62-98 | `%d` without width or precision prints '-' for a negative value and then the decimal digits of its magnitude |
| Printk.LineLength | kernel/printk.c:61-76 | the inner copy loop stops just after the first newline, or at the end of the text |
| Printk.LogLinesLevel | kernel/printk.c:35-92 | after `printk` the message level is -1 exactly when the text ended with a newline, otherwise a level 0..7 that carries into the next call |
| Printk.LogLinesWithinLine | kernel/printk.c:61-76 | text without a newline, logged in the middle of a line, goes into the log unchanged |
| Printk.EveryLinePrefixed | kernel/printk.c:46-58 | starting at a line start, every line the log receives opens with a `<d>` prefix |
| Printk.PrefixedLine | kernel/printk.c:46-58 | a line without a valid prefix is logged behind `<4>`, and a line with one is logged as it is |
| Printk.LastNAppend | kernel/printk.c:65-69 | keeping the last `LOG_BUF_LEN` characters before or after an append gives the same window |
| Printk.WindowAppend | kernel/printk.c:65-69 | logging two pieces one after the other leaves the window that logging them together leaves |
| Words.U32Add | kernel/printk.c:71 | counting in a wrapping `unsigned long` step by step matches wrapping the total |
| Printk.RingIndex | kernel/printk.c:65 | `& LOG_BUF_MASK` of the wrapped position is the position modulo `LOG_BUF_LEN` |
| Printk.RingDistinct | kernel/printk.c:65 | distinct positions in one buffer's length map to distinct slots |
| Printk.RingAppend | kernel/printk.c:65-67 | storing at `(log_start + log_size) & LOG_BUF_MASK` appends the character to the held text |
| Printk.RingRotate | kernel/printk.c:65-69 | in a full ring, storing and advancing `log_start` drops the oldest character and appends the new one |
| Printk.Log.constructor | kernel/printk.c:21-35 | empty ring, no characters logged, message level -1 |
| Printk.Log.EmitChar | kernel/printk.c:65-71 | the ring holds the last `LOG_BUF_LEN` characters ever logged; `log_size` grows up to `LOG_BUF_LEN` and then `log_start` advances; `logged_chars` grows by one |
| Printk.Log.EmitLine | kernel/printk.c:61-77 | the inner loop logs the line up to and including its newline, and says whether it met one |
| Printk.Log.StoreText | kernel/printk.c:40 | the formatted text is stored three characters into `buf` |
| Printk.Log.CheckPrefix | kernel/printk.c:46-58 | at a line start, a missing prefix is written just before the line and the level is set from the prefix; otherwise the level is kept |
| Printk.Log.WriteDefaultPrefix | kernel/printk.c:49-55 | `<4>` is written into the three characters before the line |
| Printk.Log.PrintLine | kernel/printk.c:44-92 | one turn of the outer loop logs the next line with its prefix and updates the level |
| Printk.Log.LogText | kernel/printk.c:43-93 | the outer loop appends `LogLines` of the text to the log and leaves its level behind |
| Printk.Log.LogFormatted | kernel/printk.c:40-95 | logging the formatted text keeps the ring's window, the counters and the level as `LogLines` specifies |
| Printk.Log.Printk | kernel/printk.c:29-96 | returns the `vsprintf` length (without any inserted prefix) and appends `LogLines` of the formatted text to the ring |
| E820.Start | arch/i386/kernel/setup.c:90 | an entry's start is built from its 32-bit halves and fits in 64 bits |
| E820.Length | arch/i386/kernel/setup.c:91 | an entry's length is built from its 32-bit halves and fits in 64 bits |
| E820.AddU64 | arch/i386/kernel/setup.c:92 | `start + size` in `unsigned long long` wraps modulo 2^64 |
| E820.WrapsIff | arch/i386/kernel/setup.c:95-96 | the check `start > end` fires exactly when the true end reaches 2^64 |
| E820.EntryCoverage | arch/i386/kernel/setup.c:100-114 | an address is covered by the regions an entry yields exactly when the entry covers it and it is not RAM inside the hole 0xA0000..0x100000; the type is kept |
| E820.CappedStep | arch/i386/kernel/setup.c:26-40 | adding one more region to a capped table is one more `add_memory_region` |
| E820.CappedAppend | arch/i386/kernel/setup.c:26-40 | adding regions in two batches gives the table adding them at once gives |
| E820.CappedTruncates | arch/i386/kernel/setup.c:30-34 | the table keeps the first `E820MAX` regions added and silently drops the rest |
| E820.FirstWrap | arch/i386/kernel/setup.c:89-96 | the copy loop stops at the first entry whose end wraps, after only entries that do not |
| E820.ExpandStep | arch/i386/kernel/setup.c:89-115 | the regions of one more entry come after the regions of the entries before it |
| E820.CopiedUpTo | arch/i386/kernel/setup.c:81-117 | a copy that stops at a wrapping entry leaves the regions of the entries before it |
| E820.FallbackEnd | arch/i386/kernel/setup.c:150 | the fallback high region ends at `mem_size << 10` |
| E820.MmapCountAsWrittenShort | arch/i386/kernel/setup.c:130 | a six-entry map is counted as fewer than two entries by the division as written |
| E820.MmapCountExact | arch/i386/kernel/setup.c:130 | dividing the map's length by the entry size counts a map of `k` entries as `k` |
| E820.E820Map.constructor | arch/i386/kernel/setup.c:11 | the global table starts empty |
| E820.E820Map.AddMemoryRegion | arch/i386/kernel/setup.c:26-40 | the region is appended and `nr_map` grows, unless the table already holds `E820MAX` regions |
| E820.E820Map.CopyEntry | arch/i386/kernel/setup.c:90-114 | an entry that does not wrap adds its clipped regions to the table |
| E820.E820Map.CopyMultibootMmap | arch/i386/kernel/setup.c:81-117 | fewer than 2 entries: -1 and no change; otherwise the regions of the entries up to the first wrapping one are added, and -1 is returned exactly when one wraps |
| E820.E820Map.SetupMemoryRegion | arch/i386/kernel/setup.c:127-154 | a map that is accepted is copied; otherwise the table holds exactly `[0, LOWMEMSIZE)` and 1 MB up to the larger of the two BIOS sizes |
| Bootmem.MapSizeExact | mm/bootmem.c:25-31 | the bitmap bytes are `ceil((end - start) / 8)` rounded up to a multiple of `sizeof(long)`, enough for a bit per frame |
| Bootmem.BootMemory.constructor | mm/numa.c:15-20 | the one node `contig_page_data` with its boot-memory data, and an empty node list |
| Bootmem.BootMemory.InitBootmemCore | mm/bootmem.c:22-39 | the node is prepended to `pgdat_list`; the bitmap sits at the kernel address of frame `mapstart` and starts at `start << PAGE_SHIFT`; exactly its bytes become 0xff, so every tracked frame is reserved; its size is returned |
| Bootmem.BootMemory.InitBootmem | mm/bootmem.c:47-53 | `max_low_pfn = pages`, `min_low_pfn = start`, frames `[0, pages)` are tracked and reserved with the bitmap at frame `start` |
| MmZone.BootmemData.constructor | include/linux/bootmem.h:13-22 | the boot-memory data starts zeroed |
| MmZone.Node.constructor | include/linux/mmzone.h:7-23 | a node has three empty zones, `NR_GFPINDEX` zone lists and no successor |
| PageAlloc.MaskRanges | mm/page_alloc.c:209-219 | the watermark unit is `realsize / ratio` clamped into `[min, max]`, and each clamp applies exactly on its range |
| PageAlloc.ZoneOfInRange | mm/page_alloc.c:184-241 | every frame of the node lies in the range of exactly one non-empty zone, from that zone's offset |
| PageAlloc.CumulativeRounding | mm/page_alloc.c:247-250 | rounding the size up order by order equals rounding it straight up to a multiple of `2^(i+1)` |
| PageAlloc.BitmapBytesExact | mm/page_alloc.c:242-257 | the order-`i` bitmap bytes are `LONG_ALIGN(ceil(2 * ceil(size / 2^(i+1)) / 8))`, a bit per block pair and more |
| PageAlloc.ShrDiv | mm/page_alloc.c:255 | `x >> i` is `x / 2^i` |
| PageAlloc.ZoneClass | mm/page_alloc.c:82-88 | every flag value selects one of the three zones (`__GFP_DMA` over `__GFP_HIGHMEM`), so the `default: BUG()` branch of the switch is unreachable |
| PageAlloc.FallbackOrdered | mm/page_alloc.c:88-107 | a fallback list holds exactly the non-empty zones at or below the preferred one, in strictly descending order |
| PageAlloc.ZonelistShape | mm/page_alloc.c:72-107 | with `__GFP_DMA` the list is the DMA zone if it is non-empty; otherwise Normal then DMA, each only if non-empty |
| PageAlloc.PairIndexInMap | mm/page_alloc.c:242-259 | the pair bit of every block of a zone lies inside the bitmap sized for it |
| PageAlloc.InitReady | mm/page_alloc.c:243-259 | freshly set-up free areas are ready for the buddy free |
| PageAlloc.AlignFacts | mm/page_alloc.c:376 | `page_idx &= mask` rounds down to an aligned block that holds `page_idx` |
| PageAlloc.ListEdits | mm/page_alloc.c:369-379 | `list_del` and `list_add` change only the one free list and no bitmap |
| PageAlloc.ToggleEdits | mm/page_alloc.c:357 | `test_and_change_bit` flips exactly one bit and leaves the lists alone |
| PageAlloc.StepEffect | mm/page_alloc.c:348-377 | one pass of the coalescing loop: a busy buddy stops with the bit flipped and the block listed; a buddy out of the zone is fatal; a free buddy is unlinked and the walk goes one order up with the block aligned |
| PageAlloc.CoalesceAtTop | mm/page_alloc.c:348-379 | at order `MAX_ORDER - 1` the loop ends and the block goes on the top list unmerged |
| PageAlloc.CoalesceStops | mm/page_alloc.c:357-379 | a clear pair bit is set and the block goes on the list of its order |
| PageAlloc.CoalesceBadRange | mm/page_alloc.c:362-367 | a buddy or block outside the zone ends in `BUG()` |
| PageAlloc.CoalesceMerges | mm/page_alloc.c:362-376 | a set pair bit is cleared, the buddy `page_idx ^ 2^order` is unlinked, and coalescing goes on one order up from the aligned index |
| PageAlloc.CoalesceShape | mm/page_alloc.c:346-379 | coalescing ends at an order between the freed one and `MAX_ORDER - 1`, at the aligned index, with the zone's size, place and readiness kept |
| PageAlloc.CoalesceBits | mm/page_alloc.c:357-375 | coalescing flips exactly the pair bits from the freed order up to the final one, and no others |
| PageAlloc.CoalesceLists | mm/page_alloc.c:369-379 | coalescing unlinks each merged buddy and puts the final block at the head of its order's list, and changes no other list |
| PageAlloc.PairIndexUp | mm/page_alloc.c:375-376 | after `page_idx &= mask`, one order up, the pair bit is `index >> 1` |
| PageAlloc.ZoneOfAt | mm/page_alloc.c:228-232 | the frames from a zone's offset up to the next zone's belong to that zone |
| PageAlloc.InitPagesInZones | mm/page_alloc.c:228-239 | every frame of the node points back to the zone `j` whose range holds it; that zone is non-empty, lies inside the node, and has a free area per order whose bitmap has a bit for every pair of blocks |
| PageAlloc.InitWatermarks | mm/page_alloc.c:211-219 | a non-empty zone's watermarks are `mask`, `2 * mask` and `3 * mask` with the clamped unit |
| PageAlloc.BuildZonelists | mm/page_alloc.c:68-109 | every zone list `i` has `gfp_mask == i` and holds exactly the fallback zones of its preferred zone, in order, with the rest NULL |
| PageAlloc.BuildFreeArea | mm/page_alloc.c:242-260 | the order loop gives each order an empty free list and a zeroed bitmap of the size the cumulative rounding gives |
| PageAlloc.AddZonesFree | mm/page_alloc.c:407-408 | the inner loop adds the free counts of a node's `MAX_NR_ZONES` zones to the running `unsigned int` sum, wrapping modulo `2^32` |
| PageAlloc.NrFreePages | mm/page_alloc.c:397-412 | the sum of the free counts of every zone of every node on `pgdat_list`, in an `unsigned int` |
| PageAlloc.FreeBlockUnfold | mm/page_alloc.c:292-379 | freeing is the checks, then coalescing from the credited zone with the page released |
| PageAlloc.CreditedReady | mm/page_alloc.c:346 | crediting the zone's free count keeps it ready |
| PageAlloc.FreeBlockAccepted | mm/page_alloc.c:292-379 | a block is freed only when its page is not in use, lies below `max_mapnr` and is aligned; it ends merged into the aligned block holding it, of some order from `order` up and below `MAX_ORDER`; the zone keeps its size, place and readiness, and its free count grows by exactly `2^order` modulo `2^32` |
| PageAlloc.FreeBlockLists | mm/page_alloc.c:369-379 | freeing unlinks each merged buddy and lists the merged block, and touches no other list |
| PageAlloc.FreeBlockBits | mm/page_alloc.c:357-375 | freeing flips the pair bits from the freed order up to the merged block's, and no others |
| PageAlloc.MergePass | mm/page_alloc.c:350-377 | one pass of the loop body is the pass `StepAt` defines; a clear bit ends the walk with the block listed, a bad range ends it in `BUG()`, and a merge hands the walk, with the same outcome, to the aligned block one order up whose pair bit is `index >> 1` |
| PageAlloc.MergeBlock | mm/page_alloc.c:341-379 | the coalescing loop ends in `BUG()` exactly when `Coalesce` is fatal, and otherwise leaves the zone `Coalesce` gives |
| PageAlloc.SetupZone | mm/page_alloc.c:191-260 | the zone fields, watermarks and free areas of zone `j` are those `ZoneAfterInit` gives, and the unit returned is the clamped mask (0 for an empty zone) |
| PageAlloc.PageAllocator.constructor | mm/page_alloc.c:14 | the allocator's globals before set-up: no page map, zero watermarks and memory pressure |
| PageAlloc.PageAllocator.ReservePages | mm/page_alloc.c:171-182 | every descriptor of the node gets count 0 and the reserved bit |
| PageAlloc.PageAllocator.MapZonePages | mm/page_alloc.c:228-239 | each page of the zone points to it, and outside high memory gets the next virtual address, `PAGE_SIZE` apart |
| PageAlloc.PageAllocator.InitZone | mm/page_alloc.c:185-260 | one pass of the zone loop: the zone as `ZoneAfterInit` gives it, `freepages` grown by `mask`, `2 * mask`, `3 * mask` (nothing for an empty zone), the offset advanced by the size |
| PageAlloc.PageAllocator.InitZones | mm/page_alloc.c:184-261 | every zone as `ZoneAfterInit` gives it, every descriptor as `PageAfterInit` gives it, and `freepages` grown by the summed units |
| PageAlloc.PageAllocator.FreeAreaInitCore | mm/page_alloc.c:125-263 | the node's size and start, a fresh page map of `totalpages + 1` descriptors, the zones, the `freepages` watermarks and the zone lists, each as specified |
| PageAlloc.PageAllocator.FreeAreaInit | mm/page_alloc.c:267-271 | `free_area_init_core` for the one node, from physical address 0, without holes |
| PageAlloc.PageAllocator.FreePagesOk | mm/page_alloc.c:279-383 | `BUG()` exactly when `FreeBlock` is fatal; otherwise the page is released, the zone is the one `FreeBlock` gives, and memory pressure drops by one above `NR_CPUS` |
| PageAlloc.PageAllocator.FreePages | mm/page_alloc.c:388-394 | a reserved page is left alone; otherwise a reference is dropped, and the block is freed exactly when that was the last |
| Buddy.RemoveDistinct | mm/page_alloc.c:369 | `list_del` of a listed block shortens a list without repeats by one and keeps it without repeats |
| Buddy.ListedChange | mm/page_alloc.c:346 | changing only the order-`o` list changes the listed pages by `2^o` per block added or removed |
| Buddy.InitConsistent | mm/page_alloc.c:243-259 | free areas as set up (empty lists, clear bitmaps) with nothing counted free satisfy the buddy invariant: each pair bit below the top order records whether exactly one block of its pair is listed, listed blocks are disjoint, and `free_pages` is the sum of `|list_o| * 2^o` modulo `2^32` |
| Buddy.ZoneAfterInitConsistent | mm/page_alloc.c:184-260 | every non-empty zone as `free_area_init_core` leaves it satisfies the buddy invariant |
| Buddy.PairOf | mm/page_alloc.c:341-376 | the block at `page_idx` and its buddy `page_idx ^ 2^order` are the two blocks of pair `page_idx >> (order + 1)`, and `page_idx & mask` is the pair's start |
| Buddy.TopKeeps | mm/page_alloc.c:348-379 | at the top order, listing the in-flight block restores the invariant |
| Buddy.StopKeeps | mm/page_alloc.c:357-379 | when the buddy is not free, setting the pair bit and listing the block restores the invariant |
| Buddy.StopBits | mm/page_alloc.c:357-379 | setting the bit and listing the block keeps every pair bit matched to its pair |
| Buddy.MergeBits | mm/page_alloc.c:357-369 | when the bit was set, the buddy is listed, and clearing the bit and unlinking the buddy keeps every pair bit matched |
| Buddy.MergeKeeps | mm/page_alloc.c:357-376 | a merge leaves the enclosing block of the next order in flight: it overlaps no listed block and is already counted |
| Buddy.MergeAreas | mm/page_alloc.c:369-376 | unlinking the free buddy keeps the listed blocks disjoint, clear of the merged block, and the count exact with the merged block in flight |
| Buddy.CoalesceConsistent | mm/page_alloc.c:348-379 | coalescing an in-flight block that does not end in `BUG()` leaves the zone satisfying the buddy invariant |
| Buddy.CreditedInFlight | mm/page_alloc.c:346 | `free_pages -= mask` on a consistent zone makes a block that overlaps no listed block the one in flight |
| Buddy.FreeBlockConsistent | mm/page_alloc.c:292-379 | `__free_pages_ok` on a consistent zone, freeing a block that overlaps no listed block, leaves the zone consistent unless it ends in `BUG()` |
| PageTable.KernelTables | arch/i386/mm/init.c:59-63 | the direct map takes at most the kernel's 256 directory slots |
| PageTable.KernelPteMaps | arch/i386/mm/init.c:82-87 | a kernel page entry maps `vaddr` to `vaddr - PAGE_OFFSET` with the `PAGE_KERNEL` bits |
| PageTable.TableFoundBack | arch/i386/mm/init.c:76-80 | `pte_offset` finds the installed table back from `_KERNPG_TABLE + __pa(pte)`, so those `BUG()`s cannot fire |
| PageTable.MappedSlots | arch/i386/mm/init.c:59-63 | within the kernel's slots, those below `end` are a prefix of exactly `KernelTables(end)` slots |
| PageTable.MappedIffLowMemory | arch/i386/mm/init.c:53-63 | an address of kernel space is mapped exactly when its physical address lies below `max_low_pfn` frames; `end == 0` means no bound |
| PageTable.FixmapSlot | arch/i386/mm/init.c:93 | the fixed-mapping walk starts at 0xffc00000, the last directory slot |
| PageTable.FixStop | arch/i386/mm/init.c:23-38 | `fixrange_init` stops at a slot between its first slot and the end of the directory |
| PageTable.FixmapWalk | arch/i386/mm/init.c:23-40 | a walk that starts at the last directory slot (0xffc00000) with `end == 0` visits that slot and stops at the end of the directory, because `vaddr` wraps to 0 |
| PageTable.PageTables.constructor | arch/i386/mm/init.c:46-56 | the directory and the pool of low pages, with none handed out |
| PageTable.PageTables.AllocLowPage | arch/i386/mm/init.c:76-77 | the next pool page is handed out zero-filled and can be found back from its directory entry |
| PageTable.PageTables.InstallTable | arch/i386/mm/init.c:76-80 | a fresh zero-filled table is installed in slot `i` and nothing else of the directory changes |
| PageTable.PageTables.FillTable | arch/i386/mm/init.c:82-87 | entry `k` of the table maps the address it stands for when that is below `end`, and is left alone otherwise |
| PageTable.PageTables.FixrangeInit | arch/i386/mm/init.c:10-41 | only empty slots in the walk get a fresh table, in order; slots holding a table and slots outside the walk are unchanged; no page entry is written |
| PageTable.PageTables.MapDirect | arch/i386/mm/init.c:57-90 | every kernel slot below `end` gets a fresh table, whether or not it held one, filled with the direct map; the walk stops at the first slot at or above `end` |
| PageTable.PageTables.PagetableInit | arch/i386/mm/init.c:46-97 | the direct map up to `max_low_pfn`, then a table for the fixed-mapping slot if it has none; user slots are unchanged |
| PageTable.WalkStops | arch/i386/mm/init.c:59-63 | the slot where the walk over kernel slots stops is the end of the mapped prefix |
| PageTable.EmptiesMonotone | arch/i386/mm/init.c:30-33 | a longer walk allocates at least as many tables |
| Slab.FitsNone | mm/slab.c:99-102 | zero objects always fit, so `num` is 0 when none fit |
| Slab.FitsMonotone | mm/slab.c:99-102 | if `j` objects fit then so do fewer |
| Slab.FitsBounded | mm/slab.c:99-100 | with `size > 0` or `extra > 0`, the number that fits is bounded, so the loop ends |
| Slab.KmemCacheEstimate | mm/slab.c:83-111 | `num` is the largest count that fits, capped at `SLAB_LIMIT`, and `left_over` is the slab's bytes less `num * size` and the aligned management area |
| Slab.LeftOverSmall | mm/slab.c:99-110 | when one more object does not fit, the bytes left over are less than one object plus its control word and a cache line |
| Slab.CacheCache.constructor | mm/slab.c:39-47 | `cache_cache` as statically initialised: object size `sizeof(kmem_cache_t)`, `SLAB_NO_REAP`, colour offset `L1_CACHE_BYTES`, name "kmem_cache" |
| Slab.CacheCache.KmemCacheInit | mm/slab.c:115-127 | `num` is the largest count of caches that fits one page (40), `colour = left_over / colour_off` (2), and `colour_next = 0` |
| Resource.PlaceFrom | kernel/resource.c:39-62 | the walk skips the children ending before `new`, stops at a clash when a child overlaps `new` (inclusive ranges), and otherwise stops at the first child starting after `new.end` |
| Resource.InsertIffDisjoint | kernel/resource.c:39-62 | in a sorted sibling list, `new` is inserted exactly when it overlaps no child, and the clash reported is an overlapping child |
| Resource.InsertKeepsOrdered | kernel/resource.c:47-52 | inserting where the walk stops keeps a sorted, disjoint sibling list sorted and disjoint |
| Resource.InsertBetween | kernel/resource.c:47-52 | a range between two neighbours keeps a sorted, disjoint list sorted and disjoint |
| Resource.Resource.constructor | include/linux/ioport.h:6-12 | a resource with its name, range and flags, no parent and no children |
| Resource.RequestInner | kernel/resource.c:22-63 | an empty range or one leaving the root's returns `root`; a clash returns the first overlapping child; otherwise `new` is linked before the first child after it, gets `root` as parent, and NULL is returned; refused requests change nothing |
| Resource.RequestResource | kernel/resource.c:71-84 | 0 exactly when the range lies inside `root` and the sibling walk finds no clash (for sorted children: overlaps no child); then `new` is spliced in where the walk stopped, so `InsertKeepsOrdered` keeps the siblings sorted, and gets `root` as parent; otherwise `-EBUSY`, with the children and `new`'s parent unchanged |
| Softirq.SetBit | kernel/softirq.c:60-62 | or-ing `1 << nr` into the mask sets bit `nr` and keeps every other bit |
| Softirq.TaskletInit | kernel/softirq.c:24-30 | the tasklet gets `func` and `data`, `state = 0` and `count = 0`, and no other tasklet changes |
| Softirq.Softirqs.constructor | kernel/softirq.c:38-45 | empty tables and a clear mask |
| Softirq.Softirqs.InitBh | kernel/softirq.c:13-18 | `bh_base[nr]` becomes `routine` and nothing else changes |
| Softirq.Softirqs.OpenSoftirq | kernel/softirq.c:51-63 | `softirq_vec[nr]` gets `action` and `data`, and bit `nr` of the mask is set with the other bits kept |
| Softirq.Softirqs.SoftirqInit | kernel/softirq.c:82-92 | every `bh_task_vec[i]` runs `bh_action` with data `i`, and `TASKLET_SOFTIRQ` and `HI_SOFTIRQ` are registered (mask bits 0 and 3 set) |
| Descriptors.GateFields | arch/i386/kernel/traps.c:30-42 | a gate descriptor decodes to the handler address, the kernel code selector, present, the dpl and the type it was built from |
| Descriptors.KindType | arch/i386/kernel/traps.c:47-60 | the type is 14 exactly for an interrupt gate, 15 otherwise |
| Descriptors.KindDpl | arch/i386/kernel/traps.c:47-69 | the dpl is 3 exactly for a system gate, 0 otherwise |
| Descriptors.Installed | arch/i386/kernel/traps.c:112-133 | `trap_init` installs a gate exactly for vectors 0..19 and `SYSCALL_VECTOR` |
| Descriptors.InstalledGates | arch/i386/kernel/traps.c:112-133 | vectors 0, 1 and 6..19 get trap gates, vector 2 an interrupt gate, and 3, 4, 5 and 0x80 system gates, each present with its dpl |
| Descriptors.Bytes | arch/i386/kernel/traps.c:76-85 | a descriptor is eight bytes in memory |
| Descriptors.BytesRoundTrip | arch/i386/kernel/traps.c:76-85 | reading back the bytes of a descriptor gives the descriptor |
| Descriptors.FromBytesRoundTrip | arch/i386/kernel/traps.c:76-85 | the bytes of a descriptor read from eight bytes are those bytes |
| Descriptors.SystemDesc | arch/i386/kernel/traps.c:76-85 | the bytes are limit, base bits 0-15, base bits 16-23, the type, 0 and base bits 24-31 |
| Descriptors.SystemFields | arch/i386/kernel/traps.c:76-85 | a system descriptor decodes to its base, its 16-bit limit and its type, with zero flags |
| Descriptors.SlotsApart | include/asm-i386/desc.h:5-28 | `__LDT(n)` is the slot right after `__TSS(n)`, and no two CPUs share a slot |
| Descriptors.SelectorFields | include/asm-i386/desc.h:54-57 | the selector `index << 3` names the GDT slot `index` with table bit and privilege 0 |
| Descriptors.LdtLimitExact | arch/i386/kernel/traps.c:103-106 | the LDT limit `size * 8 - 1` covers exactly `size` eight-byte entries |
| Descriptors.Tables.constructor | arch/i386/kernel/traps.c:21-23 | an empty IDT and GDT, with the default LDT's address |
| Descriptors.Tables.SetGate | arch/i386/kernel/traps.c:30-42 | exactly IDT entry `n` becomes the gate for the type, dpl and address |
| Descriptors.Tables.SetKindGate | arch/i386/kernel/traps.c:47-69 | exactly IDT entry `n` becomes the gate of the kind's type and dpl |
| Descriptors.Tables.TrapInit | arch/i386/kernel/traps.c:109-134 | every vector `trap_init` names gets the gate of its kind with the NULL handler address 0, and every other entry is unchanged |
| Descriptors.Tables.SetTssLdtDesc | arch/i386/kernel/traps.c:76-85 | exactly GDT entry `index` becomes the system descriptor |
| Descriptors.Tables.SetTssDesc | arch/i386/kernel/traps.c:90-94 | GDT slot `__TSS(n)` gets limit 235 and type 0x89, and nothing else changes |
| Descriptors.Tables.SetLdtDesc | arch/i386/kernel/traps.c:103-106 | GDT slot `__LDT(n)` gets limit `size * 8 - 1` and type 0x82, and nothing else changes |
| Descriptors.Tables.LoadTr | include/asm-i386/desc.h:54 | TR is loaded with the selector of `__TSS(n)` |
| Descriptors.Tables.LoadLdt | include/asm-i386/desc.h:69-83 | the CPU's LDT slot describes the default LDT of 5 entries when the task has none, else the task's of `LDT_ENTRIES`; LDTR gets its selector |

## Left out

- Console output (`print_str`), the console-driver loop that is commented out, and waking log readers are not modelled. They are I/O.
- Spinlocks, `irqsave` and `resource_lock` are treated as no-ops. Execution is single-context.
- `va_list` mechanics are not modelled: arguments are a sequence of values. A missing argument reads as 0. `%n` records the output position in a list instead of writing through a pointer.
- `isdigit` is modelled as '0'..'9'. The `_ctype` table is not part of this model.
- `free_area_init_core`'s boot-allocator calls are not modelled. The page map is a fresh zero-filled array and each bitmap a fresh zeroed sequence. `MAP_ALIGN` is not part of this model.
- `free_area_init_core` does not model: the `nid` argument, the printed totals, `realtotalpages`, the `active_list` and `inactive_dirty_list` heads, wait queues and list heads of the descriptors, zone names and locks, and the `zone_pgdat` and `zone_mem_map` pointers.
- The page map is the global `mem_map`, so `node_start_mapnr` is 0.
- `VALID_PAGE(page)` is modelled as `page < max_mapnr`. `max_mapnr` is set by `mem_init`, which is not part of this model, so it is a constructor parameter. `NR_CPUS` is also a parameter.
- The `Page*` flag tests are boolean fields of the page descriptor. Their bit numbers are not part of this model.
- The `area >= zone->free_area + MAX_ORDER` check is modelled as `BUG()` for an order at or above `MAX_ORDER`.
- `__GFP_HIGHMEM` is 0 in this tree, so no zone list starts with high memory.
- `alloc_pages` (the buddy split) and the bootmem `alloc`/`free`/`reserve` routines are not part of this model.
- `__va` is not part of this model. It is modelled as the inverse of `__pa`: adding `PAGE_OFFSET` modulo 2^32.
- `cpu_init`, called at the end of `trap_init`, is not part of this model.
- The CR3 reload in `paging_init`, the `ltr` and `lldt` instructions, and `__flush_tlb` are not modelled. Only the selector values loaded are.
- `copy_multiboot_mmap` takes its entries as a sequence, not as memory at `grub_mboot_ptr`. It reads fixed-size entries and ignores each entry's `size` field, as the code does.
- E820.E820Map.SetupMemoryRegion: counts the map's entries with `MmapCount` (length / entry size), not with the source's division by `sizeof(struct multiboot_t)`. See "## Findings".
- Printk.Log.Printk: requires the formatted text, behind the three reserved characters and with its NUL, to fit the 1024-character `buf`. The source does not check this, and an overflow corrupts memory.
- PageAlloc.PageAllocator.FreePagesOk: promises nothing about the state after a `BUG()`. It requires `order < 32`, because a C shift by 32 or more is undefined.
- PageAlloc.PageAllocator.FreePages: promises nothing about the state after a `BUG()` in `__free_pages_ok`. `put_page_testzero` is modelled as a plain decrement, not an atomic one. It requires `order < 32`, as `__free_pages_ok` does.
- Slab.KmemCacheEstimate: requires `gfporder < 20`, where `PAGE_SIZE << gfporder` fits in 32 bits. The wrap of larger shifts is not modelled. It also requires `size > 0` or on-slab bufctls, because otherwise the counting loop does not end. `Need` computes `i * size` and `i * extra` without the 32-bit `size_t` wrap, so for object sizes near 2^32 the model stops counting where the C loop, whose products wrap, keeps going.
- Vsprintf.Atoi: accumulates the digits of a width or precision as an unbounded integer. `skip_atoi` accumulates in a C `int`, where more than 2^31 - 1 is signed overflow, undefined in C (gcc on i386 wraps, so "%4294967306d" has width 10 there).
- Vsprintf.ScanWidth: negates a negative `*` width as an unbounded integer, so `INT_MIN` becomes 2^31. In C, `-field_width` overflows there, which is undefined (gcc on i386 leaves `INT_MIN`).
- Vsprintf.ScanPrecision: reads digits through `Atoi`, with the same unbounded accumulation.
- Bootmem.BootMemory.InitBootmemCore: requires `start <= end`, the bitmap to lie inside the modelled memory, and `end - start + 7` to fit in 32 bits. Bitmaps placed elsewhere and a wrapped page count are not modelled.

## Findings

| source | as written | input that shows it | evidently intended | confidence | as-written member | corrected member |
|---|---|---|---|---|---|---|
| arch/i386/kernel/setup.c:130 | the entry count passed to `copy_multiboot_mmap` is `mmap_length / sizeof(struct multiboot_t)`, the size of the 96-byte Multiboot information structure | a map of six 24-byte entries (`mmap_length` 144) is counted as 1 entry, so the map is refused and the fallback map is used | `mmap_length / sizeof(struct mmap_entry_t)`, a count of whole entries | not executed | E820.MmapCountAsWrittenShort | E820.MmapCountExact |
