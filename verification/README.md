# LightOS in Dafny

LightOS is an x86-32 teaching kernel with three virtual terminals, a round-robin
scheduler, a small process table, a read-only file system and a blinking-character
demo. This project models the parts of it whose correctness is hardest to see from
one function at a time, and proves what they add up to.

Check it with `dafny verify dfyconfig.toml`.

## How it is built

**One kernel.** `paging.dfy` holds physical memory, the page directory and the two
page tables, and the walk the processor makes through them (4 KB and 4 MB pages,
section 4.3, 32-Bit Paging, of the Intel SDM, Volume 3A). `terminals.dfy` runs the
console loops, the terminal switch and the keyboard handler on that memory, every
access going through the walk. `kernel.dfy` adds the pid pool, the process control
blocks, `schedule`, `execute` and `halt`. Each class has a `Valid()` and a model: the
state it stands for. That model is in `model.dfy`: three terminals, three stacks of
pids, one PCB slot and one 4 MB frame per pid. Every method of `Kernel` is proved to
be the matching step of the model, and `Kernel.RunAll` carries this to whole runs.

**Theorems about runs** are about the model and hold for every sequence of ticks,
system calls, scan codes and user-mode stores: `runs.dfy` (round robin, booting),
`contexts.dfy` (PCB slots against stacks of suspended contexts), `independence.dfy`
(terminals, what they show, lines being typed, user memory), `reads.dfy` (a whole
`terminal_read` call), `programs.dfy` (what execute and vidmap leave in user memory),
`vidmap.dfy` (the vidmap page) and `kernelstacks.dfy` (which kernel stack a process enters on). They rest on
value-level theorems: `console.dfy` (the 80x25 screen as a window onto an unbounded layout) and
`tty.dfy` (the edited line, the echo on the screen and what `terminal_read` returns).

**Independent components.** `blocks.dfy` (memset, memcpy, memmove), `numerals.dfy`
(itoa, strrev, `%#x`), `files.dfy` (read_data and chunked reads), `images.dfy` (how a disk
image is written, against how it is read), `directory.dfy` (the search for a name),
`descriptors.dfy` (the descriptor table), `cat.dfy` (a program over all four), `clock.dfy` (virtual RTC rates) and `blink*.dfy` (the list, its
pool, its timers and what is seen on the screen). `words.dfy` has the integer sizes.

Each system call, each interrupt handler and each `putc` is one atomic step. Runs start
at the `sti` of `kernel.c:178`. Until the first timer tick only keys can arrive; the
other steps need a running process. What a system call hands to its caller is stored
through the page tables into the memory of the running process.

## Where the code does not do what it seems to

Each of these is kept as coded, with a lemma that says exactly when the promise holds
and, where the name does not say it, one with an input on which it fails.

- `memcpy` on overlapping regions: `Blocks.MemcpyMovesExactlyWhen`.
- Backspace, described as reversing `current_terminal_putc`:
  `Console.BackReversesPutcExactlyWhen`, with `Console.BackLosesTheScroll`.
- A key on a full line buffer overwrites the buffer's own length, which lies behind it:
  `LineDiscipline.KeyJoinsLineExactlyWhen`, with `TerminalReads.LongLineFromPowerOn`.
- Backspace after Enter can empty a line that is about to be read, and the read then
  stores before its buffer: `TerminalReads.ReadKeepsToItsBufferExactlyWhen`, with
  `TerminalReads.EmptiedReadFromPowerOn`.
- The ticks that boot a terminal save under a fixed pid:
  `SavedContexts.BootTickKeepsExactlyWhenClean`, with
  `SavedContexts.EarlyExecuteMixesContexts`.
- `vidmap` always points at the display, and `execute` maps the page for the parent
  after the child has been chosen, so that the child of a process with the page has it
  without asking: `Vidmap.VidRightAfterRun`, with `Vidmap.FirstVidmapIsWrong` and
  `Vidmap.FirstChildHasPageUnasked`.
- `execute` puts `tss.esp0` at the bottom of the child's region, where the next pid's
  begins. Until its first tick the child enters the kernel there, and a frame it leaves
  there lies where the next pid enters: `KernelStacks.HitsExactlyWhen`, with
  `KernelStacks.SecondChildHits` and `KernelStacks.GrandchildHits`.
- A negative byte count moves the file position backwards:
  `FileSystem.PositionAdvancesExactlyWhen`, with `FileSystem.NegativeCountRereads`.
- A name of 33 characters finds a file whose name fills its field and whose kind is the
  last character: `Directory.SearchFindsEntry`.
- A failed open uses up a descriptor for good: `Descriptors.EveryFailedOpenLeaks`. An open
  on a full table writes past it, onto the saved ebp: `SavedContexts.SpoiledSlotIsDead`.
- A blinking character at location 0 makes the list cyclic: `BlinkModel.AddAgrees`, with
  `BlinkModel.ZeroLocationBreaksTheList`.
- A sync shows the off character whatever the phase:
  `BlinkModel.SyncShowsPhaseExactlyWhen`.

## Model

| member | source | states |
|---|---|---|
| Console.ConsoleShowsLayout | student-distrib/lib.c:198-238 | For every text put on a cleared screen, all 2000 cells and attributes are the 25-row window of the unbounded 80-column layout that has the cursor on its last row; the window moves only at the bottom, y is 25 only with x 0, and the page beyond its 4000 bytes is untouched |
| Console.BackReversesPutcExactlyWhen | student-distrib/lib.c:607-626 | Backspace restores the screen and cursor from before a character if and only if the character went to a blank cell with no scroll owed, or was a break at a blank end of a row above the last |
| Console.BackLosesTheScroll | student-distrib/lib.c:560-626 | After any 2000 characters on a cleared screen one more scrolls, and backspace does not bring the screen back |
| Console.BackShows | student-distrib/lib.c:607-626 | On a screen that is a window onto a text's layout, backspace leaves the window onto the text less its last character, or, over a break, onto the text with spaces up to the last column of the row above |
| Console.CursorCellIs | student-distrib/lib.c:198-238 | The display's cursor register names the row and column of the cursor, and the top row while a scroll is owed |
| Console.CursorFollowsCharacter | student-distrib/lib.c:198-238 | The cell before the display's cursor holds the character just put |
| LineDiscipline.EchoKeepsCells | student-distrib/lib.c:560-605 | Echoing a character puts it just before the cursor and keeps the up to 127 cells before it, through wrap and scroll |
| LineDiscipline.AppliedAll | student-distrib/keyboard.c:95-120 | For every sequence of keys, backspaces and Ctrl-L that stays under 128 characters while a read waits, the buffer is the line the user means and the cells before the cursor are that line |
| LineDiscipline.KeyJoinsLineExactlyWhen | student-distrib/keyboard.c:117-119 | A key joins the line if and only if fewer than 128 are buffered; with 128 the line is cut to as many characters as the key's code plus one |
| LineDiscipline.EnterDelivers | student-distrib/terminal.c:46-65 | After any such editing and Enter, the read returns the edited line cut to n bytes and ended by a newline |
| LineDiscipline.IdleKeyOnlyEchoes | student-distrib/keyboard.c:102-120 | While no read waits a key is echoed and changes nothing else |
| LineDiscipline.FullLineDelivers | student-distrib/keyboard.c:108-112 | Enter on 128 buffered keys ends the read with the first 127 and a break, and the next Backspace only lowers the overflow count |
| Keyboard.OnlyEnterBreaks | student-distrib/keyboard.c:12-21 | In both shift states the scan code table has one line break, at Enter, and no carriage return |
| Keyboard.LetterKeys | student-distrib/keyboard.c:102-103 | A letter key gives its letter, and with Shift or Caps Lock its capital |
| Keyboard.ModifiersFollowKeys | student-distrib/keyboard.c:77-94 | After any scan codes Alt and Ctrl are down if their last code was a press, the two Shift keys count as one, and Caps Lock stays on |
| Paging.Machine.constructor | student-distrib/paging.c:12-148 | After page_initialize the kernel page and the five video pages are mapped for the kernel alone, and every other entry of the three tables is absent |
| Paging.Machine.VideoMaps | student-distrib/paging.c:83-106 | All 4096 offsets of virtual page 0xB7 reach the display, and those of page 0xB8 the page its table entry names |
| Paging.Machine.MapUser | student-distrib/syscall.c:311-334 | The 128 MB entry becomes a user 4 MB page at 8 MB + pid * 4 MB and no other entry changes |
| Paging.Machine.EnableVidmap | student-distrib/syscall.c:396-431 | The 132 MB entry becomes a user page table whose first page is the display |
| Paging.Machine.UserReach | student-distrib/paging.c:12-148 | A user-mode access at any 32-bit address reaches its own frame through 128 MB, a video page through the vidmap page if present, and faults everywhere else |
| Paging.Machine.KernelReach | student-distrib/paging.c:12-148 | A kernel access reaches also the kernel page and the video pages, and nothing else |
| Paging.Machine.KernelReachesNoOtherFrame | student-distrib/syscall.c:311-334 | Whatever address the kernel is handed, it reaches no frame but the running process's |
| Terminals.Video.constructor | student-distrib/keyboard.c:36-68 | The three terminals start with cursor 0,0 and empty buffers, the first one active and current |
| Terminals.Video.ScrollUp | student-distrib/lib.c:200-208 | The two loops move every row of the mapped page up, blank the last and change no other page |
| Terminals.Video.PutcThrough | student-distrib/lib.c:198-236 | Through any window, the bytes of the page and the terminal's cursor become what putc means, and no other page or terminal field changes |
| Terminals.Video.Putc | student-distrib/lib.c:198-238 | Of the three terminals only the active one's screen changes, the display cursor stays the current terminal's, and memory beyond the video pages stays |
| Terminals.Video.Clear | student-distrib/lib.c:48-57 | Only the active terminal is cleared, wherever its screen is kept |
| Terminals.Video.Echo | student-distrib/lib.c:560-605 | Only the current terminal's screen changes, whichever terminal is active, and the byte in video memory before the display's cursor is the character |
| Terminals.Video.EchoBack | student-distrib/lib.c:611-626 | Only the current terminal's screen changes, by one cell blanked |
| Terminals.Video.EchoClear | student-distrib/lib.c:632-641 | Only the current terminal is cleared |
| Terminals.Video.Remap | student-distrib/syscall.c:368-390 | Virtual page 0xB8 and the vidmap entry name the page that shows the active terminal |
| Terminals.Video.SwitchTo | student-distrib/keyboard.c:135-198 | A switch changes what is displayed and the display cursor, and none of the three terminals |
| Terminals.SwitchKeepsTtys | student-distrib/keyboard.c:139-149 | Saving the display to one backing page and loading it from another leaves all three screens as they were |
| Terminals.Video.Rub | student-distrib/keyboard.c:95-101 | Backspace edits the current terminal's buffer and screen together, or eats overflow |
| Terminals.Video.Type | student-distrib/keyboard.c:102-120 | A character key echoes and buffers on the current terminal only, with the Ctrl-L, Enter and full-buffer cases, the key past the end of the buffer among them |
| Terminals.Video.KeyboardHandler | student-distrib/keyboard.c:74-129 | For every scan code: what happens to the modifiers, to the current terminal, or to which terminal is current |
| Terminals.Video.Write | student-distrib/terminal.c:71-87 | The whole text goes to the active terminal's screen and nowhere else |
| Terminals.Video.BeginRead | student-distrib/terminal.c:49-50 | Only the active terminal starts to take keys |
| KernelModel.FreePid | student-distrib/syscall.c:30-39 | When not all of 4 to 6 are live, the new pid is in 4 to 6, is not live, and is the least such |
| KernelModel.Step | student-distrib/syscall.c:57-211 | Every step from a well-formed state leaves three disjoint stacks, each on its terminal's root shell, and a tick or a step of a running process leaves one running |
| Syscalls.PoolAccounts | student-distrib/syscall.c:30-51 | process_count + 1 is the number of taken slots, so the capacity check decides exactly whether a pid is free and which one the search finds |
| Syscalls.PopKeepsChains | student-distrib/syscall.c:86-90 | The halting process's PCB names as parent the process below it on the stack, whose PCB names this terminal, and the chains stay chains |
| Syscalls.TopIsNoParent | student-distrib/syscall.c:78-90 | The process that halts is no live process's parent |
| Syscalls.Kernel.TakePid | student-distrib/syscall.c:30-39 | Takes the least free slot, or returns -1 and changes nothing when there is none |
| Syscalls.Kernel.ReleasePid | student-distrib/syscall.c:45-51 | Frees exactly the given slot, or rejects a pid outside 0 to 6 |
| Syscalls.Kernel.CreateShell | student-distrib/syscall.c:549-589 | The shell's bytes are in the root process's frame, no other frame, no screen and no other process changes |
| Syscalls.Kernel.BootEnter | student-distrib/syscall.c:690-732 | The terminal and its root shell become active and both mappings are theirs |
| Syscalls.Kernel.Schedule | student-distrib/syscall.c:481-543 | Is the model's tick: the next terminal's process runs on its own page and screen, and what is loaded is that process's slot |
| Syscalls.Kernel.HaltChild | student-distrib/syscall.c:78-100 | Is the model's halt: the terminal taken from the parent's PCB is the same terminal, its stack loses its top, and the parent's slot is loaded |
| Syscalls.Kernel.Halt | student-distrib/syscall.c:57-101 | A root shell starts again with its message printed; any other process gives way to its parent |
| Syscalls.Kernel.LoadProgram | student-distrib/syscall.c:200-201 | The program's bytes land in the child's frame and change no other frame and no screen |
| Programs.ExecuteLoadsProgram | student-distrib/syscall.c:195-208 | After an execute the new process's frame holds the program 0x48000 bytes in, the rest of it and all other frames are what they were |
| Programs.FailedExecuteLoadsNothing | student-distrib/syscall.c:107-183 | An execute that fails changes no frame, stack, context or flag |
| Programs.VidmapStoresAddress | student-distrib/syscall.c:284-288 | The four bytes vidmap stores are the address of the page it mapped |
| Syscalls.Kernel.Allocate | student-distrib/syscall.c:178-183 | After the capacity check the search cannot fail, and finds the least free pid |
| Syscalls.Kernel.Spawn | student-distrib/syscall.c:178-210 | Is the model's execute of a program: stack pushed, child's slot fresh, parent's context saved, child's frame loaded |
| Syscalls.Kernel.Execute | student-distrib/syscall.c:107-211 | Succeeds exactly when a pid is free and the file is a program, and then the new process's own accesses from 0x08048000 on reach the program's bytes; a failure leaves pool, counter, PCBs and chains unchanged |
| Syscalls.Kernel.KeyboardHandler | student-distrib/keyboard.c:74-129 | A scan code, before the first tick as well, changes terminals and mappings as the model says and no process or user memory |
| Syscalls.Kernel.UserStore | student-distrib/syscall.c:311-334 | A user-mode store changes the running process's frame or the screen its vidmap page shows, and is refused exactly where the model says it faults |
| Syscalls.Kernel.FinishRead | student-distrib/terminal.c:51-64 | The bytes the read promises are stored through the page tables at the caller's address and nothing else in memory changes, the terminal's buffer is emptied, and their number is returned |
| Syscalls.Kernel.CopyKeys | student-distrib/terminal.c:52-63 | The copying loop, with its second store of the last byte, stores exactly the delivered line, or a break before the buffer when the line is empty |
| Syscalls.Kernel.CopyOut | student-distrib/syscall.c:262-265 | What a system call copies to its caller lands in the memory the caller itself could store to, and nowhere else |
| Syscalls.Kernel.EnableVidmap | student-distrib/syscall.c:274-288 | An address outside the page is refused; otherwise the flag is set, the page is the display, and the four bytes of its own address are stored at the one given |
| Syscalls.Kernel.OpenWhenFull | student-distrib/general_file.c:49-59 | An open on a full table changes the saved ebp of the running process and nothing else |
| Syscalls.Kernel.RunAll | student-distrib/syscall.c:57-543 | Every run of the kernel is the run of the model with the same steps |
| Syscalls.PowerOn | student-distrib/kernel.c:152-178 | The kernel starts with the invariant, nothing running, no key held or buffered, the first terminal on display with its screen clear, and the shell's bytes in the three root frames |
| KernelRuns.RoundRobin | student-distrib/syscall.c:481-525 | After any run the active terminal is the first one plus the number of ticks, modulo 3, whatever executes and halts came between |
| KernelRuns.FairShare | student-distrib/syscall.c:481-525 | In any run each terminal gets exactly its third of the ticks |
| KernelRuns.ThreeTicksServeAll | student-distrib/syscall.c:481-525 | Any run with three ticks gives each terminal exactly one turn |
| KernelRuns.BootedForEver | student-distrib/syscall.c:57-76 | Once booted, a terminal has its root shell at the bottom of its stack in every later state |
| KernelRuns.ThreeTicksBootAll | student-distrib/syscall.c:515-525 | After three ticks every terminal has its root shell |
| SavedContexts.ContextsNeverMix | student-distrib/syscall.c:203-205 | Over every run, the PCB slot of each suspended process is the context a stack discipline owes it: that of its preemption if it is on top, of the execute that made its child if not |
| SavedContexts.LoadsAreOwed | student-distrib/syscall.c:461-474 | What schedule and halt load is the owed context of the process they resume |
| SavedContexts.BootedRunsAreClean | student-distrib/syscall.c:495-498 | Once all terminals have booted, no later run needs a condition for this |
| SavedContexts.BootTickKeepsExactlyWhenClean | student-distrib/syscall.c:499-513 | A tick that boots a terminal keeps contexts apart if and only if the interrupted terminal runs its root shell |
| SavedContexts.EarlyExecuteMixesContexts | student-distrib/syscall.c:499-513 | From power-on, a tick, an execute and a tick mix the contexts of shell and child |
| SavedContexts.ContextsFromPowerOn | student-distrib/syscall.c:203-205 | The same guarantee from power-on, where nothing is owed |
| SavedContexts.SpoiledSlotIsDead | student-distrib/general_file.c:49-59 | The write past a full table spoils no context that will be loaded |
| Independence.TerminalsAreIndependent | student-distrib/keyboard.c:135-198 | After every run each terminal's screen, cursor and buffer are as if its own output and keys had been played to it alone |
| Independence.TextSurvivesRun | student-distrib/lib.c:198-238 | A terminal that shows a text and is only printed to goes on showing the window onto that text and the prints, whatever else ran |
| Independence.ScreenFollowsText | student-distrib/lib.c:560-641 | After every run each screen is the window onto the text its own prints, echoed keys, backspaces and Ctrl-L make; only a store through the vidmap page ends this, until the next clear |
| Independence.LineSurvivesRun | student-distrib/keyboard.c:95-120 | A line typed across any interleaving of switches, ticks and other terminals is the edited line in the buffer and before the cursor |
| TerminalReads.WaiterIsKept | student-distrib/terminal.c:49-50 | Over every run in which a terminal's process only waits, it stays the terminal's process and its memory does not change |
| TerminalReads.ReadReturnsLine | student-distrib/terminal.c:46-65 | For a read begun, typed to, ended by Enter and followed by any number of backspaces inside any run: the process that ends it is the one that began it, and its memory is what it was but for the line, less what was rubbed out, cut to n bytes and ended by a break; no other process's memory changes |
| TerminalReads.ReadKeepsToItsBufferExactlyWhen | student-distrib/terminal.c:52-63 | Such a read stores within its buffer if and only if there were no more backspaces after Enter than characters in the line |
| TerminalReads.ReadLeavesIdle | student-distrib/terminal.c:52-64 | The count returned is the length of the line stored, and the terminal keeps nothing of it for the next read |
| TerminalReads.ReadIgnoresEarlierKeys | student-distrib/keyboard.c:104-120 | Whatever was typed before the read began, in any run, the read returns only the line edited after |
| TerminalReads.FullReadReturns | student-distrib/keyboard.c:108-112 | A line of 128 characters typed inside any run is read as its first 127 and a break |
| TerminalReads.EmptiedReadFromPowerOn | student-distrib/keyboard.c:95-101 | From power-on, Enter on the first shell's empty line and Backspace make its read store a break in the byte before its buffer |
| TerminalReads.LongLineFromPowerOn | student-distrib/keyboard.c:117-119 | From power-on, 128 presses of one key fill the first shell's line and the next cuts it to 98 characters |
| Independence.KeysAreEdits | student-distrib/keyboard.c:102-120 | Every scan code that reaches the buffer, other than Enter, is one of the edits these theorems cover |
| Independence.AltFunctionShows | student-distrib/keyboard.c:121-127 | After any run, function key n puts terminal n on display exactly when Alt was pressed since its last release, and no terminal changes |
| Independence.StepIsolates | student-distrib/syscall.c:195-201 | A step changes a frame only by the running process's own store, by what a system call stores for it, or by loading a child that was not live |
| Independence.SleepersKeepTheirMemory | student-distrib/syscall.c:195-208 | Over every run in which a live process never runs, its memory does not change |
| Vidmap.VidRightAfterRun | student-distrib/syscall.c:368-431 | After any run the vidmap entry is present exactly if the running process asked for it and names its terminal's screen, if and only if the last step that wrote it was a tick, a halt, a switch, an execute by a process without the page, or a request from the terminal on display |
| Vidmap.SomeTouchFromPowerOn | student-distrib/syscall.c:515-525 | From power-on some step has always written it once a process runs |
| Vidmap.VidStoreIsOwn | student-distrib/syscall.c:368-390 | With the page half of the entry right a store through it changes the program's own screen at that byte; otherwise its own screen does not change |
| Vidmap.FirstVidmapIsWrong | student-distrib/syscall.c:422 | From power-on, a tick and a request leave the entry on another terminal's screen |
| Vidmap.ChildHasPageUnasked | student-distrib/syscall.c:198-207 | A child of a process with the page has the page without having asked |
| Vidmap.FirstChildHasPageUnasked | student-distrib/syscall.c:198-207 | From power-on, a tick, a request and an execute come to that |
| KernelStacks.EntriesAfterRun | student-distrib/syscall.c:203-208 | After any run esp0 is the top of the running process's region, or its bottom if the last tick, halt or execute was the execute that made it; and every suspended process entered the kernel at the top of its own region, or at its bottom if it was still newborn then |
| KernelStacks.HitsExactlyWhen | student-distrib/syscall.c:203-208 | From power-on, the running process's next kernel entry falls on the frame a suspended process left if and only if it is newborn and the next pid was suspended from its top, or it is not and the pid before was suspended while newborn |
| KernelStacks.MovesAreRuns | student-distrib/syscall.c:481-543 | What is worked out on stacks of pids alone is a run of the kernel, with every tick clean and every earlier entry harmless |
| KernelStacks.GrandchildHits | student-distrib/syscall.c:203-208 | Eight steps from power-on, all harmless, after which pid 5's next entry falls on the frame its waiting parent, pid 4, left while newborn |
| KernelStacks.SecondChildHits | student-distrib/syscall.c:203-208 | Thirteen steps from power-on, all harmless, after which newborn pid 4's next entry falls on the frame pid 5 left |
| Blocks.Memset | student-distrib/lib.c:335-369 | For every alignment and length exactly the n bytes become the low byte of c |
| Blocks.Memcpy | student-distrib/lib.c:418-455 | Memory becomes the three-part copy, for every alignment, length and overlap |
| Blocks.MemcpyIsSimpleLoop | student-distrib/lib.c:418-455 | The three-part copy is the bytewise upward loop whenever the destination is not one to three bytes above the source |
| Blocks.MemcpyMovesExactlyWhen | student-distrib/lib.c:418-455 | It copies every memory's block unchanged if and only if the destination is not inside the block above the source, or the block is one aligned double word |
| Blocks.Memmove | student-distrib/lib.c:464-482 | For every overlap all n bytes move as if at once and nothing else changes |
| Numerals.Strlen | student-distrib/lib.c:322-327 | Returns the place of the first end mark |
| Numerals.Strrev | student-distrib/lib.c:303-316 | The string is reversed in place and nothing around it changes |
| Numerals.Itoa | student-distrib/lib.c:267-297 | For every 32-bit value and radix 2 to 36 the buffer holds the numeral and its end mark, at most 32 digits, and nothing else changes |
| Numerals.Puts | student-distrib/lib.c:185-192 | Prints the characters up to the first end mark |
| Numerals.NumeralReadsBack | student-distrib/lib.c:285-290 | Reading the numeral back in its radix gives the value |
| Numerals.NumeralIsProper | student-distrib/lib.c:285-290 | Its digits are all below the radix, it has no end mark inside, and it starts with 0 only for 0 |
| Numerals.WordFits | student-distrib/lib.c:109-126 | A 32-bit value has at most 32 digits, and at most 8 in radix 16 |
| Numerals.HexEight | student-distrib/lib.c:109-126 | What puts prints for `%#x`, up to the end mark, is exactly eight characters, zeros and then the numeral, that read back to the value |
| FileSystem.CopyBlocks | student-distrib/filesystem.c:117-138 | The block loop copies exactly the bytes of the flat file between two offsets, including block-aligned ends and full-sized files |
| FileSystem.ReadData | student-distrib/filesystem.c:92-139 | For every inode, offset and length the buffer receives file[offset .. min(offset + length, size)], nothing beyond changes and that count is returned; a bad inode gives -1 |
| FileSystem.FileRead | student-distrib/filesystem.c:275-289 | A read delivers the slice at the position and moves the position by what was asked, in 32 bits; inode 0 is refused |
| Images.FileReadsBack | student-distrib/filesystem.c:102-121 | On every image written as boot block, inode blocks and data blocks, with any placement of the blocks, the file read at inode i is the i-th file put in |
| Images.PackStores | student-distrib/filesystem.c:117-121 | Any files that fit can be written so |
| Directory.ReadDentryByName | student-distrib/filesystem.c:46-81 | The search gives the first of the 63 entries whose field is the name, or nothing |
| Directory.SearchFindsEntry | student-distrib/filesystem.c:64-81 | On every image written with a directory, that is the kind and inode of the first entry of that name; a name too long for the field is found only as a full name and its kind |
| FileSystem.ChunksRebuildFile | student-distrib/filesystem.c:275-289 | For every sequence of positive requests the pieces join to the file between the two positions |
| FileSystem.NothingLeftAtEnd | student-distrib/filesystem.c:275-289 | A read returns nothing if and only if the whole file has been delivered |
| FileSystem.PositionAdvancesExactlyWhen | student-distrib/filesystem.c:284-286 | The position passes what was delivered if and only if position plus request stays below 2^32 |
| FileSystem.NegativeCountRereads | student-distrib/general_file.c:103-114 | A byte count of -1 makes the next read deliver a byte again |
| CatProgram.ReadAll | syscalls/ece391cat.c:20-27 | The read loop ends, and has written the file the descriptor names, or fails when that cannot be read |
| CatProgram.Cat | syscalls/ece391cat.c:6-30 | From a name to the output: on every written image the program prints exactly the file put in under that name, or reports that there is none, that the table is full, or that it cannot be read |
| Descriptors.Table.constructor | student-distrib/general_file.c:15-43 | All eight slots are initial |
| Descriptors.Table.Open | student-distrib/general_file.c:49-80 | For every lookup result, which slot is taken, what it then holds, what is returned, and the write past a full table |
| Descriptors.OpenedSlot | student-distrib/general_file.c:49-75 | An open of a name that exists takes the least free slot, which then has the entry's inode, position 0 and the operations of its kind |
| Descriptors.Table.Read | student-distrib/general_file.c:103-114 | A read of a descriptor delivers the next slice of the file it names and moves its position, or is refused with nothing changed |
| Descriptors.Table.Close | student-distrib/general_file.c:86-97 | Restores an open slot or changes nothing |
| Descriptors.OpenThenClose | student-distrib/general_file.c:49-97 | Opening an existing name gives the least slot not in use, and closing it restores the table |
| Descriptors.CloseSucceedsExactlyWhenOpen | student-distrib/filesystem.c:247-253 | Close succeeds if and only if the slot is 2 to 7 and open; otherwise nothing changes |
| Descriptors.SlotMeaning | student-distrib/general_file.c:63-75 | A slot has operations if and only if its inode is set |
| Descriptors.EveryFailedOpenLeaks | student-distrib/general_file.c:55-78 | After any sequence of calls the table has lost exactly as many slots as opens failed to find a usable name |
| Descriptors.SixFailuresExhaust | student-distrib/general_file.c:55-78 | After six of them no open succeeds, whatever is closed |
| Clock.Rtc.Handler | student-distrib/rtc.c:21-51 | Each count goes down by one and stops at 0 |
| Clock.Rtc.Write | student-distrib/rtc.c:187-208 | The doubling loop accepts exactly the powers of two from 2 to 1024 |
| Clock.Step | student-distrib/rtc.c:142-208 | Every event keeps each rate a power of two in 2 to 1024 and each count in 0 to 512 |
| Clock.CountsDownAlone | student-distrib/rtc.c:31-46 | Over every interleaving a waiting terminal's count falls by exactly the interrupts, whatever the others do |
| Clock.ReadTakesOnePeriod | student-distrib/rtc.c:142-158 | A read is over if and only if 1024 / rate interrupts have come |
| Clock.WriteSetsPeriod | student-distrib/rtc.c:187-208 | After a rate was accepted, and whatever the others do, the terminal's reads take 1024 / rate interrupts |
| Clock.RateIsOkExactlyWhenListed | student-distrib/rtc.c:187-208 | The rates accepted are the ten powers of two from 2 to 1024 |
| Clock.SecondOfReads | student-distrib/rtc.c:142-158 | In any run of `rate` reads, each waited to 0, the terminal's count has taken in exactly 1024 interrupts |
| BlinkModel.AddAgrees | fish/blink.S:105-184 | An add keeps the list and the pool in agreement if and only if the location is not 0 or the add fails |
| BlinkModel.ZeroLocationBreaksTheList | fish/fish.c:160-170 | After an add at location 0 the next add makes the list visit one node twice |
| BlinkModel.RemoveAgrees | fish/blink.S:187-237 | A remove keeps list and pool in agreement |
| BlinkModel.FreePlusListed | fish/fish.c:160-175 | Free and listed nodes are always 2000, so an add lacks a node if and only if 2000 are listed |
| BlinkModel.AddSucceedsExactlyWhen | fish/blink.S:127-147 | An add succeeds if and only if the location is on the screen and fewer than 2000 characters blink |
| BlinkModel.RemoveTakesFirst | fish/blink.S:187-237 | Where characters blink a remove takes the first of them off the list, wherever it stands, and frees it; the others keep their order and every other node stays |
| BlinkModel.RemoveShortens | fish/blink.S:206-217 | The characters at that location are then the ones after it, and those at every other location are the same |
| BlinkModel.SyncCopiesTiming | fish/blink.S:267-275 | A sync gives the second node the first one's timing and changes nothing else |
| BlinkRuns.FindSeesNewest | fish/blink.S:351-379 | After every run of calls a search finds a node exactly when one is listed at the location, and it is the one added last of those |
| BlinkRuns.RemoveTakesNewest | fish/blink.S:187-237 | After every run a remove leaves one fewer at the location: the newest is gone and the next search finds the next newest, or none |
| BlinkModel.SyncShowsPhaseExactlyWhen | fish/blink.S:277-286 | A sync leaves the second character showing its phase if and only if the first is off |
| BlinkModel.AddThenRemove | fish/blink.S:187-237 | Removing what was just added restores the list and every node on it |
| BlinkTiming.BlinkPhase | fish/blink.S:49-99 | For all 16-bit lengths, k ticks after an add the node is on exactly when k modulo its period is within its on time, and its countdown lasts to the end of that phase |
| BlinkTiming.NodeSeesEveryTick | fish/blink.S:49-99 | In every run of calls that leaves a node alone, it has seen exactly the ticks of the run |
| BlinkTiming.PhaseInRun | fish/blink.S:49-99 | The phase and countdown formulas for a node inside any such run |
| BlinkRuns.CharacterBlinks | fish/blink.S:60-84 | A character added where no other blinks is seen on the screen in its on form exactly in the first part of each period, in every run that leaves it alone |
| BlinkTiming.SyncedNodesBlinkTogether | fish/blink.S:267-275 | After a sync the two nodes have the same timing in every later run that leaves both alone |
| BlinkList.List.Malloc | fish/fish.c:160-170 | Returns the least node with location 0 |
| BlinkList.List.Add | fish/blink.S:105-184 | Links the started node in front and shows its on character; the links spell the new order, and the invariant survives exactly when the location is not 0 |
| BlinkList.List.FindHelper | fish/blink.S:351-379 | Following the links ends, at the first node with the location or at the end of the list |
| BlinkList.List.Remove | fish/blink.S:187-237 | Unlinks and frees exactly the first node with the location |
| BlinkList.List.Unlink | fish/blink.S:206-217 | The pointer search ends at the link before the node, and the links then skip that node alone |
| BlinkList.List.Sync | fish/blink.S:240-286 | Copies the four timing fields from the first node found to the second and shows its off character, and fails if either is missing |
| BlinkList.List.Tasklet | fish/blink.S:49-99 | Every listed node takes one tick, those that toggle show their new character in list order, and no other node or cell changes |

## Left out

- Preemption inside a system call: the IDT entries do not mask interrupts, so the real code can be interrupted there; the model's steps are atomic.
- Boot, GDT, IDT, TSS and PIC setup, port I/O, TLB flushes, `iret` and real registers: a context is an abstract esp and ebp pair, and a kernel stack is the place its frame is pushed to, not its contents. The wait in `rtc_read` is not a step of the kernel model; `clock.dfy` has it alone.
- Page tables, PCBs and the terminal records as memory: they are objects of their own, so a wild kernel store into them is not expressible. The two stores past an array's end that the code does make, in the key buffer and the descriptor table, are modelled by what they hit.
- FinishRead, CopyOut: a caller's buffer has to lie where the caller itself could store. The code does not check, and would fault or write kernel data elsewhere (`Paging.Machine.KernelReach` says where).
- A read or write of 0 bytes or with a null buffer returns at once and is no step.
- Halt, HaltChild: do not model the closing of the process's files; `descriptors.dfy` has the table alone.
- Execute: takes the outcome of the command parsing and of the file lookup as a parameter.
- PowerOn: takes the shell's bytes as a parameter; without a shell in the file system the code has nothing to boot.
- KeyboardHandler: before the first tick, a key that switches terminals is left out, because the code then reads a PCB at an unmapped address.
- Table.Read: leaves out the other operations a descriptor can name; `dir_read` ends on a literal tied to one disk image.
- Cat: leaves out names that are a directory or the rtc.
- ReadData: takes the image as loaded and the buffer as present, so the two NULL checks have no counterpart.
- ReadDentryByName: needs every entry's string to have an end, since `strlen` runs on until it finds one.
- syscall_getargs apart from its copying, the rest of printf, `back_putc`, `paging_halt`, `rtc_open` and the physical RTC device calls: easy members, or without a live caller.
- User programs other than the cat loop, and the host emulation files.
