# JOS lab 4: user-level copy-on-write fork and the kernel monitor's command line

This project models two parts of the JOS teaching kernel (lab 4) in Dafny and proves properties of the model.

**User-level fork** (`lab4/lib/fork.c`):
- `pgfault` turns a write fault on a copy-on-write (COW) page into a private, writable copy. It allocates a scratch page at `PFTEMP`, copies the faulting page into it, maps the scratch page in its place and unmaps `PFTEMP`.
- `duppage` shares one page with the child. When the page is writable or COW, both sides get `P|U|COW`; otherwise the child gets `P|U`.
- `fork` creates a child with `sys_exofork` and runs `duppage` over every present page of `[UTEXT, USTACKTOP)`. It then gives the child a fresh exception-stack page, registers the upcall and makes the child runnable.
- `sfork` panics.

The kernel appears only through its system calls:
- `class KernelModel.Kernel` holds the kernel state (`KState`): per-environment page tables of present entries, page-directory coverage, physical page contents, run states, upcalls, the running environment, and counters for fresh frames and environment ids.
- Each system call is a method that either succeeds with a stated effect or fails and leaves the state unchanged. A call may fail for reasons of its own (nondeterministic failure).
- `uvpt` and `uvpd` are read-only lookups into the running environment's tables.
- A `panic` is the outcome `Abort`.

**Kernel monitor** (`lab4/kern/monitor.c`):
- `runcmd` tokenises a NUL-terminated character array in place. It writes NUL over skipped whitespace and records argument starts in a 16-slot `argv` array. It returns 0 when there are too many arguments, none, or an unknown command; otherwise it dispatches on the command table.
- `mon_showmappings` reads two base-16 addresses with `strtol`, rejects bad input with -1, rounds both bounds up to a page and prints one line per page.
- `monitor` runs input lines until a command returns a negative value.

The central invariant is `KernelModel.SharingSafe`: whenever two distinct mappings share a physical page and either is writable or COW, both are COW and neither is writable. `pgfault`, `duppage`, `fork`'s loop and the whole of `fork` preserve it. The fork loop is stated against `LibFork.LoopTables`, one `ForkStep` per page, and `LoopTablesClosed` gives its closed form: `ParentTable` and `ChildTable`.

Modules: `Common` (Option, Outcome), `Mmu` (x86 paging words and the JOS layout), `KernelModel`, `LibFork`, `StringLib` (C strings, `strtol` base 16), `KernMonitor`.

Modelling notes:
- **Words and bits.** Page-table entries and permissions are 32-bit words held as integers. Bit tests are written on the bit's position (`word / 2 % 2 == 1` for `PTE_W`). A permission built from distinct bits is their sum, which equals their bitwise OR.
- **Constants.** `PTE_COW = 0x800` comes from `lab4/lib/fork.c:8`. The other constants are the standard JOS values from `inc/mmu.h` and `inc/memlayout.h`, which are not part of this model; `Mmu.Layout` states how they derive from one another.
- **Faults on `PFTEMP` itself.** A COW fault on the page of `PFTEMP` is modelled as written: the scratch mapping overwrites it and is then unmapped, so the page ends up unmapped (stated by `LibFork.Pgfault`).
- **Inverted present test.** `lab4/kern/monitor.c:121` prints "not mapped" for a present entry and shows the address and bits of an entry without `PTE_P`. `KernMonitor.Line` keeps this as written.
- **Wrap-around in showmappings.** `cur_addr += PGSIZE` wraps at 2^32. When the rounded-up end is `0xFFFFF000` the loop never ends. `ShowMappings` and `RunCmd` require `ShowMappingsHalts` / `RunHalts`, which exclude exactly that case.

## Model

| member | source | states |
|---|---|---|
| Mmu.RoundDown | lab4/lib/fork.c:57-60 | ROUNDDOWN gives the page-aligned address of the same page, at or below va |
| Mmu.RoundUp32 | lab4/kern/monitor.c:114-115 | ROUNDUP in 32-bit arithmetic is page aligned, lies in [va, va+PGSIZE) for va up to 0xFFFFF000, and wraps to 0 above it |
| Mmu.PteAddr | lab4/kern/monitor.c:124 | PTE_ADDR clears the low 12 bits: aligned and within one page below the entry |
| Mmu.PageNum | lab4/lib/fork.c:45 | PGNUM: the page n with n*PGSIZE <= va < (n+1)*PGSIZE |
| Mmu.DirIndex | lab4/lib/fork.c:134 | PDX: the directory slot d < 1024 whose 4 MB region holds va |
| KernelModel.Kernel.Uvpt | lab4/lib/fork.c:45 | the uvpt entry is present exactly when the running environment maps the page, and then holds its permission; otherwise it is 0 |
| KernelModel.Kernel.Uvpd | lab4/lib/fork.c:134 | the uvpd entry is present exactly when the page-directory slot covers a table |
| KernelModel.Kernel.GetEnvId | lab4/lib/fork.c:50 | sys_getenvid returns the running environment |
| KernelModel.Kernel.PageAlloc | lab4/lib/fork.c:53-54 | sys_page_alloc fails with no effect, or maps a zero-filled frame nobody used at va with perm; success needs an existing env, aligned va below UTOP and P and U in perm |
| KernelModel.Kernel.PageMap | lab4/lib/fork.c:92-99 | sys_page_map fails with no effect, or maps the source page's frame at dstva with perm; success needs both envs, a mapped aligned source page, an aligned dstva below UTOP and P and U in perm |
| KernelModel.Kernel.PageUnmap | lab4/lib/fork.c:63-64 | sys_page_unmap fails with no effect, or removes exactly that one mapping |
| KernelModel.Kernel.SetPgfaultUpcall | lab4/lib/fork.c:144-145 | the upcall of env becomes entry, or nothing changes |
| KernelModel.Kernel.SetStatus | lab4/lib/fork.c:148-149 | the run state of env becomes the given one, or nothing changes |
| KernelModel.Kernel.Exofork | lab4/lib/fork.c:126-131 | sys_exofork fails or is the child side with no effect, or adds a fresh positive id with an empty, not runnable address space |
| KernelModel.Kernel.CopyPage | lab4/lib/fork.c:57 | memmove of one page puts the source page's bytes into the destination frame and changes nothing else |
| KernelModel.UnmapKeepsSafe | lab4/lib/fork.c:63-64 | removing a mapping keeps SharingSafe |
| KernelModel.MapFreshKeepsSafe | lab4/lib/fork.c:140-141 | mapping a frame no env maps keeps SharingSafe |
| KernelModel.AddEmptyKeepsSafe | lab4/lib/fork.c:126 | a new env with an empty address space keeps SharingSafe |
| LibFork.PageConstants | lab4/lib/fork.c:133-140 | the page numbers used for PFTEMP, UXSTACKTOP-PGSIZE, UTEXT and USTACKTOP are those of the layout addresses, and PERM_PRIVATE is P\|W\|U |
| LibFork.PrivatePermBits | lab4/lib/fork.c:53 | P\|W\|U is present, writable, user and not COW |
| LibFork.Privatized | lab4/lib/fork.c:53-64 | after pgfault's three calls the faulting page maps the new frame with PERM_PRIVATE, and every other env is untouched |
| LibFork.PrivatizedSpec | lab4/lib/fork.c:53-64 | after privatising, the faulting page maps the new frame with exactly P\|W\|U, PFTEMP is unmapped, and every other mapping of every env is as before |
| LibFork.PrivatizeKeepsSafe | lab4/lib/fork.c:53-64 | privatising onto a frame nobody maps keeps SharingSafe |
| LibFork.AllocMapUnmap | lab4/lib/fork.c:53-64 | the alloc, map and unmap steps compose to Privatized; on the PFTEMP page itself they leave it unmapped |
| LibFork.Pgfault | lab4/lib/fork.c:15-66 | Abort with no state change unless the error code has FEC_WR and the page's uvpt entry has PTE_COW; on success the page maps a frame that was unused, holding the old frame's bytes, with P\|W\|U, PFTEMP is unmapped, no other mapping changes, and SharingSafe is kept |
| LibFork.DupPerm | lab4/lib/fork.c:87-90 | duppage's perm always has P and U, never W, and has COW exactly when the source entry had W or COW |
| LibFork.DupPageTable | lab4/lib/fork.c:92-100 | after duppage the child maps the parent's frame at pn with DupPerm, and envs other than parent and child are untouched |
| LibFork.DupPermShareable | lab4/lib/fork.c:88-90 | a mapping shareable with the source is shareable with duppage's new perm |
| LibFork.DupPageTableAt | lab4/lib/fork.c:92-100 | duppage writes the child's page pn, and the parent's page pn only when the perm is COW, both with the parent's frame and DupPerm; every other mapping stays |
| LibFork.DupPageKeepsPair | lab4/lib/fork.c:92-100 | after duppage any two mappings of one frame are a shareable pair |
| LibFork.DupPageKeepsSafe | lab4/lib/fork.c:92-100 | duppage keeps SharingSafe |
| LibFork.Duppage | lab4/lib/fork.c:80-102 | returns 0 with the tables equal to DupPageTable (child maps the parent's frame at pn with DupPerm, parent remapped only when COW); Abort with no change if the target env or page is missing; nothing else changes; SharingSafe is kept |
| LibFork.ChildTable | lab4/lib/fork.c:133-138 | the child holds exactly the parent's pages in [FIRST_PAGE, hi) |
| LibFork.ParentTable | lab4/lib/fork.c:133-138 | the parent keeps the same set of pages |
| LibFork.TablesStep | lab4/lib/fork.c:133-138 | moving hi past page pn adds pn to the child (and makes it COW in the parent when W or COW) or changes nothing when pn is unmapped |
| LibFork.DupPageStep | lab4/lib/fork.c:134-137 | duppage of page pn moves both tables from pn to pn+1 and leaves every other env alone |
| LibFork.ForkStep | lab4/lib/fork.c:134-137 | one pass of the loop keeps the set of environments |
| LibFork.ForkStepTables | lab4/lib/fork.c:133-138 | one pass of the loop extends ParentTable and ChildTable by one page |
| LibFork.DuplicatedStart | lab4/lib/fork.c:133 | before the loop the closed form is the unchanged state |
| LibFork.Duplicated | lab4/lib/fork.c:133-138 | the closed form after the loop reaches hi: the child holds exactly the parent's pages in [UTEXT page, hi), the parent keeps its pages, other envs are untouched |
| LibFork.DuplicatedNext | lab4/lib/fork.c:133-138 | one pass moves the closed form on by one page |
| LibFork.LoopTables | lab4/lib/fork.c:133-138 | the loop never adds or removes an environment |
| LibFork.LoopTablesClosed | lab4/lib/fork.c:133-138 | the page-by-page loop result equals the closed form: for each page in range the child maps the parent's frame; a W or COW page is P\|U\|COW on both sides; a read-only page is P\|U in the child while the parent keeps its entry, other bits included |
| LibFork.ForkStepKeepsSafe | lab4/lib/fork.c:134-137 | one pass keeps SharingSafe |
| LibFork.LoopTablesKeepSafe | lab4/lib/fork.c:133-138 | the whole loop keeps SharingSafe |
| LibFork.ForkPage | lab4/lib/fork.c:134-137 | when uvpd and uvpt both show page pn present it runs duppage; either way the state reaches LoopTables of the next page, or duppage panics; no run state changes |
| LibFork.DupAddressSpace | lab4/lib/fork.c:133-138 | the loop over [UTEXT, USTACKTOP) either panics or leaves the tables equal to LoopTables up to USTACKTOP with nothing else changed; no run state changes on either path |
| LibFork.ForkTablesShape | lab4/lib/fork.c:133-141 | after fork the parent table is ParentTable, the child is ChildTable plus the given frame mapped P\|W\|U as its exception-stack page, and other envs are untouched |
| LibFork.Fork | lab4/lib/fork.c:121-152 | returns 0 as the child with no change; as the parent returns a fresh child id whose pages are the duplicated ones plus a fresh zeroed P\|W\|U exception stack, with the upcall set and state Runnable, and no other env changes; SharingSafe is kept; atomicity: on Abort no env is Runnable that was not before, and the status map is unchanged or only gains the new child as NotRunnable |
| LibFork.Sfork | lab4/lib/fork.c:156-160 | sfork always aborts |
| StringLib.CStrEnd | lab4/kern/monitor.c:153-165 | the first NUL at or after i |
| StringLib.CStrLen | lab4/kern/monitor.c:151-166 | the first NUL of the buffer, where parsing stops |
| StringLib.CStrAt | lab4/kern/monitor.c:173 | the C string at position j is the characters up to the next NUL and contains no NUL |
| StringLib.WhitespaceSet | lab4/kern/monitor.c:138 | IsSpace holds exactly for a non-NUL character of WHITESPACE, the `*buf && strchr(WHITESPACE, *buf)` test |
| StringLib.DigitsStart | lab4/kern/monitor.c:97-107 | strtol's digits begin after the leading blanks, within the string |
| StringLib.Digits | lab4/kern/monitor.c:97-107 | strtol's digit loop stops at the first character that is not a base-16 digit, having read only digits |
| StringLib.Blanks | lab4/kern/monitor.c:97-107 | strtol skips exactly the leading blanks and tabs |
| StringLib.Strtol16 | lab4/kern/monitor.c:97-107 | the end pointer stays within the string |
| StringLib.Strtol16Spec | lab4/kern/monitor.c:97-107 | after blanks, a sign and "0x", strtol's end pointer is the first character that is not a base-16 digit, and its value is the base-16 value of the digits up to it, negated after '-' |
| StringLib.DigitsValue | lab4/kern/monitor.c:97-107 | the digit loop's value is the base-16 value of the digits it consumed |
| StringLib.HexValueOfHex | lab4/kern/monitor.c:97-107 | the base-16 digits of v read back as v |
| StringLib.StrtolOfHex | lab4/kern/monitor.c:97-107 | strtol reads "0x" followed by the hex digits of v as v and consumes all of it |
| KernMonitor.StartsSpec | lab4/kern/monitor.c:151-166 | argv's starts are exactly the positions that begin a maximal non-whitespace run, strictly increasing |
| KernMonitor.StartsPrefix | lab4/kern/monitor.c:151-166 | scanning further only appends starts |
| KernMonitor.BlankedWord | lab4/kern/monitor.c:153-165 | once the whitespace is overwritten with NUL, the C string at a start is the maximal non-whitespace run there |
| KernMonitor.SkipSpace | lab4/kern/monitor.c:153-154 | the gobble loop overwrites the skipped whitespace with NUL and stops at the terminator or at the start of an argument |
| KernMonitor.SkipWord | lab4/kern/monitor.c:164-165 | the word scan stops at the terminator or the next whitespace, past exactly one argument |
| KernMonitor.TakeArg | lab4/kern/monitor.c:163-165 | argv[argc] gets the argument's start and nothing else of argv changes |
| KernMonitor.ParseResult | lab4/kern/monitor.c:155-162 | the loop stops at the terminator with every start found, or at a 16th start with 15 recorded |
| KernMonitor.Parse | lab4/kern/monitor.c:149-167 | overflow exactly when there are 16 or more arguments; argc is then 15, otherwise the number of arguments; argv[i] points at the i-th argument; argv[argc] is NULL on the normal path; the buffer is the line with the whitespace up to the stopping point replaced by NUL |
| KernMonitor.CommandFrom | lab4/kern/monitor.c:27-32 | the first table entry with that name, or none when no entry has it |
| KernMonitor.CommandNames | lab4/kern/monitor.c:27-32 | the table has the four commands, with distinct names, so each is found by its own name |
| KernMonitor.CommandResult | lab4/kern/monitor.c:172-175 | a command returns 0 or -1, and only showmappings can return anything but 0 |
| KernMonitor.RunResult | lab4/kern/monitor.c:159-177 | runcmd's result is 0 or -1, and it is nonzero only for 1 to 15 arguments whose first is "showmappings" |
| KernMonitor.ArgvStrings | lab4/kern/monitor.c:163-173 | the C strings argv points at in the blanked buffer are the line's arguments |
| KernMonitor.BlankLine | lab4/kern/monitor.c:170-171 | an empty or whitespace-only line has no argument and runcmd returns 0 |
| KernMonitor.NegativeOnlyFromShowMappings | lab4/kern/monitor.c:172-177 | runcmd is negative exactly when there are 1 to 15 arguments, the first is "showmappings" and showmappings refuses its arguments |
| KernMonitor.RunCmd | lab4/kern/monitor.c:141-178 | the result is RunResult: 0 for too many arguments, none or an unknown name, otherwise the first matching command's result |
| KernMonitor.ParseRangeOf | lab4/kern/monitor.c:97-111 | two arguments strtol reads completely, the first not above the second, are accepted |
| KernMonitor.ParseRangeOfHex | lab4/kern/monitor.c:97-111 | "0x"-prefixed hex addresses lo <= hi are accepted as (lo, hi) |
| KernMonitor.Wrap32 | lab4/kern/monitor.c:97-103 | the long-to-uintptr_t conversion keeps values below 2^32 and changes a value only by a multiple of 2^32 |
| KernMonitor.ParseRange | lab4/kern/monitor.c:90-111 | accepted exactly when there are three arguments, strtol reads both completely and the converted start is not above the converted end; the range is then those two values, lo <= hi |
| KernMonitor.Visits | lab4/kern/monitor.c:117-131 | the loop visits nothing when cur > end, and otherwise first visits cur |
| KernMonitor.VisitsSpec | lab4/kern/monitor.c:117-131 | the loop visits cur, cur+PGSIZE, ... up to end, each once in increasing order, ending exactly at an aligned end |
| KernMonitor.PermString | lab4/kern/monitor.c:125-128 | "-%c----%c%cP" with S/U/W exactly when PTE_PS/PTE_U/PTE_W are set, '-' otherwise |
| KernMonitor.PermStringBits | lab4/kern/monitor.c:125-128 | two entries print the same string exactly when their PS, U and W bits agree |
| KernMonitor.Line | lab4/kern/monitor.c:121-128 | the line is about va; "not mapped" exactly when the walk finds nothing or, as written, the entry has PTE_P; otherwise it shows PTE_ADDR of the entry and its permission string |
| KernMonitor.Report | lab4/kern/monitor.c:117-131 | one line per visited address |
| KernMonitor.ReportAt | lab4/kern/monitor.c:119-129 | line i is for page i: "not mapped" exactly when the walk finds nothing or the entry has PTE_P (as written), otherwise PTE_ADDR and the permission string |
| KernMonitor.PrintMappings | lab4/kern/monitor.c:117-131 | the printed lines are one Line per visited page, in order |
| KernMonitor.ShowMappings | lab4/kern/monitor.c:89-133 | -1 with no line printed when argc != 3, an argument has trailing non-hex characters, or start > end before rounding; otherwise 0 and one line per page from ROUNDUP(start) to ROUNDUP(end) |
| KernMonitor.FirstExit | lab4/kern/monitor.c:191-196 | the first line whose command returns a negative value; none before it does, and none at all when it is absent |
| KernMonitor.Monitor | lab4/kern/monitor.c:181-197 | the loop exits exactly when some line makes runcmd negative, right after the first such line; otherwise it reads every line |

## Left out

- `set_pgfault_handler` and the `_pgfault_upcall` trampoline (`lab4/lib/fork.c:125`, :143-144): `lib/pgfault.c` and the assembly are not part of this model. `Fork` takes the upcall entry as a parameter.
- The child-side `thisenv` fixup (`lab4/lib/fork.c:129`): it is a pointer into the kernel's `envs` array. `Fork` returns 0 on the child side and changes nothing.
- The kernel side of every system call, `pgdir_walk`'s two-level walk, frame allocation and scheduling are abstract. A call may fail for any reason, and `Frame` ids come from a counter.
- Page reference counts and freeing frames are left out: the model never frees a frame.
- Register contents of the trap frame: `UTrapframe` holds only the fault address and error code.
- `panic` messages and all `cprintf` output are left out. For each page, `ShowMappings` returns the `PageLine` it would print. `RunCmd` drops those lines and keeps only the result.
- `mon_help`, `mon_kerninfo` and `mon_backtrace` only print (`backtrace` walks the stack with inline assembly). They are modelled as returning 0.
- `readline`: the monitor's input is a finite sequence of lines, `None` standing for a NULL return. The model stops at the end of that sequence, whereas the C loop never ends.
- `strtol`, `strchr` and `strcmp` (JOS `lib/string.c`) are not part of this model. `StringLib.Strtol16` follows JOS's definition for base 16 on an unbounded integer. `KernMonitor.Wrap32` reduces it modulo 2^32, giving the same result as the wrapping 32-bit `long` arithmetic.
- `LibFork.Duppage`: page numbers are `Vpn` values below 2^20. The C `unsigned pn`, with `pn*PGSIZE` wrapping, is not modelled beyond that range.
- `LibFork.Pgfault`, `LibFork.Duppage`, `LibFork.Fork`: on an abort after a successful system call, the page tables and memory are not stated; only `Valid()`, the running environment and the run states (unchanged for `Pgfault` and `Duppage`, no new `Runnable` env for `Fork`) are. The system is treated as halted by the panic.
- `LibFork.Fork`: page faults raised by the library's own memory accesses while fork runs are not modelled; its ensures describe only the effects of its system calls. The parent's user stack page (page 0xeebfd, inside [UTEXT, USTACKTOP)) is where the real end state differs: once duppage has made it P|U|COW, the parent's next stack write faults, and pgfault gives the parent a private P|W|U copy on a fresh frame before fork returns, whereas `Fork` leaves it P|U|COW on the shared frame. Likewise, writes the parent makes between duppage's two sys_page_map calls, which still reach the frame the child now maps, are not modelled. SharingSafe is not affected, since `LibFork.Pgfault` keeps it.
- `KernMonitor.ShowMappings`, `KernMonitor.RunCmd`: they require the loop to terminate (the rounded end is not `0xFFFFF000`). The diverging case is excluded rather than modelled.
