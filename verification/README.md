# TxVM: a verified model

TxVM is a transaction virtual machine together with the blockchain state machine that applies its
logs. This project models the parts of it that are hardest to get right and proves what they are for.

- **The virtual machine.** `Items`, `Ledger`, `Machine`, `Stacks`, `Instructions` and `Interpreter`
  define a small-step machine with explicit frames for exec and call. Every instruction carries one
  invariant, and `Runs` lifts it to whole runs: conservation of value, the frozen log, termination by
  runlimit. `VirtualMachine` is the machine as the source writes it, an object whose methods update
  fields and recurse through exec and call, proved to compute exactly the frame machine. `Laws` states
  what instructions do to each other's results, including suspension and resumption of contracts.
  `Effects` states what each opcode does, as the specification draws it, and `Subprograms` what exec and
  call do over whole runs.
- **Encoding.** `Varint`, `Opcodes`, `Encoding`, `Compilation` and `Transfers`: encoded data are programs
  that push that data, so encoding is injective and a contract survives the way from output to input.
- **The assembler.** `Assembler`: jump resolution terminates at the least solution, and running a
  resolved jump lands exactly on its label.
- **Trees.** `Merkle` is the tree hash of RFC 6962. `Bits`, `Patricia` and `PatriciaHash` are the
  patricia tree as a value, its set and its hash; `PatriciaTree` is the heap of shared nodes with
  memoised hashes that refines it.
- **The chain.** `Blocks`, `Generation`, `History`, `TxLog` and `Commits` are the state machine: generator
  and validator agree, no contract is spent twice, no nonce of positive expiry is accepted twice,
  concurrent commits and crashes are harmless. `NonceReplay` and `Supply` join the virtual machine
  and the chain: which nonces of valid transactions can be accepted twice, and, over whole chains, that what
  is held, retired or lost of an asset is what was issued. `Listings` says what a transaction lists for each
  instruction. `Chains` holds the objects that carry the state machine out, with the patricia trees of
  `PatriciaTree` inside the snapshots.
- **Commitments.** `Bindings` says what IDs and roots commit to: an asset to its issuer, a transaction ID to the
  log, a block ID to its header and to the whole chain before it, roots to transactions and states.
- **Arithmetic and hashing.** `FieldArithmetic`, `FieldInversion` and `Recoding` are the field and scalar
  code behind ed25519, with every fixed-width operation checked not to overflow; `Primes` and `FieldPrime` prove
  Fermat's little theorem and that 2^255 - 19 is prime, so that inversion inverts; `SpongeConstruction`,
  `Lanes` and `Sha3` are the buffered sponge.

Hash functions, signature verification and the Keccak permutation are parameters of which nothing is
assumed but their types. Results about hashes therefore read "equal, or here are two strings with one
hash". Go's fixed-width integers are subset types or newtypes, and wrap-around is written out where the
source can reach it. A panic of the source is an error result.

Where the specification and the code differ, the code is followed: merge hashes the anchor of the upper value
before that of the lower one, nothing makes a program finalize, and small integers reach 0x1f.

Some properties that one might expect turn out to be false of the code. Each is settled by its failing
inputs together with the exact condition under which the code does meet it:

- A nonce whose expiry is zero or negative can be replayed, because it is pruned once its expiry is past
  while its time range never ends; a valid transaction makes such a nonce for every expiry
  (`NonceReplay.ReplayExactly`, `NonceReplay.UnendingExpiryIsReplayed`, `NonceReplay.NonceTxIsValid`).
- A transaction with a negative runlimit can make the generator produce a block that `BlockOnly` rejects
  (`Generation.NegativeRunlimitIsRejected`, `Generation.GeneratedBlockIsAccepted`); no program that
  validates has one (`TxLog.ValidRunlimitIsNatural`).
- A block with a negative runlimit can be accepted, because the first subtraction may wrap it around
  (`Generation.NegativeBlockRunlimitIsAccepted`, `Generation.SufficesIfCovering`).
- A reference count at the maximum of int64 wraps around in `BlockPrev`
  (`Generation.FullRefsCountIsRejected`, `Generation.GeneratedBlockFollows`).
- The last digit of the radix-16 recoding exceeds 8 for large scalars, although the sum of the digits is
  always right (`Recoding.Radix16`), and the sliding windows lose a carry for some scalars above 2^255
  (`Recoding.LeastLost`, `Recoding.Slide`).
- A copy of a sponge that is being squeezed is out of step with it unless the rate is 168
  (`Sha3.CloneInStep`).

## Model

| member | source | states |
|---|---|---|
| `Runs.NoUnbalancedTransaction` | protocol/txvm/doc.go:11-13 | for every program and every asset, in an error-free Validate run the issued amounts in the log plus the amounts inside contracts taken in equal the retired amounts plus the amounts inside contracts put out |
| `Runs.BalancedAtEveryStep` | protocol/txvm/vm.go:122-156 | the same equation at every step of every run, counting the argument stack, the current contract and every suspended caller with nested contract stacks |
| `Runs.LogNamesContracts` | protocol/txvm/log.go:43-49 | the log of a valid run names, in order and with their directions, exactly the contracts that input and output moved |
| `Runs.OutputsAreNatural` | protocol/txvm/values.go:73-109 | in a valid run, whatever is put out holds no negative value if nothing taken in before it does |
| `Runs.LogOnlyGrows` | protocol/txvm/log.go:24-33 | over any number of steps the earlier log is a prefix of the later one, and after finalization nothing recorded changes |
| `Runs.FinalizedLogIsSealed` | protocol/txvm/tx.go:11-25 | in every reachable finalized state the single finalize entry is the last one and TxID is the RFC 6962 tree hash of the encodings of the whole log |
| `Runs.LogIsFormed` | protocol/txvm/log.go:24-49 | at every step of every run, each entry of the log has the number and kinds of fields that its type code calls for |
| `Runs.PcStaysInBounds` | protocol/txvm/vm.go:137-180 | in every reachable state pc lies in [0, len(prog)], in the running program and in all waiting ones |
| `Runs.InstructionsArePaidFor` | protocol/txvm/vm.go:158-187 | no run, whatever its jumps and nesting, performs more instructions than the runlimit it uses up |
| `Runs.EveryRunStops` | protocol/txvm/vm.go:137-156 | after a number of steps bounded by the runlimit the machine has halted or failed, and the result is that of the recursive run |
| `Runs.ValidExactly` | protocol/txvm/vm.go:100-135 | a program is valid exactly if its version is at least 3, its runlimit at least its length, and some number of steps brings it to its end with both stacks empty |
| `Machine.Charge` | protocol/txvm/vm.go:182-187 | a charge succeeds exactly when the runlimit covers it, lowers the runlimit by its amount and changes nothing else; otherwise the error is ErrRunlimit |
| `Machine.Log` | protocol/txvm/log.go:24-33 | logging changes the log and the runlimit only, records exactly the amounts its entry names, and keeps the log well formed |
| `Instructions.OpIssue` | protocol/txvm/values.go:29-43 | keeps the step invariant |
| `Instructions.OpSplit` | protocol/txvm/values.go:73-92 | keeps the step invariant |
| `Instructions.OpMerge` | protocol/txvm/values.go:94-109 | keeps the step invariant |
| `Instructions.OpRetire` | protocol/txvm/values.go:111-114 | keeps the step invariant |
| `Instructions.OpNonce` | protocol/txvm/anchors.go:5-16 | keeps the step invariant; every logged nonce is followed at once by a time range that ends at its expiry |
| `Instructions.OpValuePart` | protocol/txvm/values.go:61-71 | keeps the step invariant |
| `Instructions.OpContract` | protocol/txvm/contract.go:32-36 | keeps the step invariant |
| `Instructions.OpOutput` | protocol/txvm/contract.go:64-74 | keeps the step invariant; the amounts of the leaving contract are booked as put out |
| `Instructions.OpInput` | protocol/txvm/contract.go:76-89 | keeps the step invariant; the amounts of the contract described by the tuple are booked as taken in |
| `Instructions.OpYield` | protocol/txvm/contract.go:91-96 | keeps the step invariant; the suspended contract is counted once, on the argument stack |
| `Instructions.OpWrap` | protocol/txvm/contract.go:98-107 | keeps the step invariant; the suspended contract is counted once, on the argument stack |
| `Instructions.OpGet` | protocol/txvm/contract.go:134-140 | keeps the step invariant |
| `Instructions.OpPut` | protocol/txvm/contract.go:142-145 | keeps the step invariant |
| `Instructions.OpSeed` | protocol/txvm/contract.go:119-127 | keeps the step invariant |
| `Instructions.OpExt` | protocol/txvm/contract.go:147-152 | keeps the step invariant |
| `Instructions.OpRoll` | protocol/txvm/stack.go:89-96 | keeps the step invariant |
| `Instructions.OpBury` | protocol/txvm/stack.go:98-105 | keeps the step invariant |
| `Instructions.OpReverse` | protocol/txvm/stack.go:107-115 | keeps the step invariant |
| `Instructions.OpPeek` | protocol/txvm/stack.go:121-129 | keeps the step invariant |
| `Instructions.OpDup` | protocol/txvm/data.go:15-22 | keeps the step invariant |
| `Instructions.OpDrop` | protocol/txvm/data.go:24-29 | keeps the step invariant; only plain data and zero values can be dropped |
| `Instructions.OpTuple` | protocol/txvm/data.go:63-76 | keeps the step invariant |
| `Instructions.OpUntuple` | protocol/txvm/data.go:78-85 | keeps the step invariant |
| `Instructions.OpLog` | protocol/txvm/log.go:9-12 | keeps the step invariant |
| `Instructions.OpPeekLog` | protocol/txvm/log.go:14-21 | keeps the step invariant |
| `Instructions.OpTimeRange` | protocol/txvm/time.go:3-7 | keeps the step invariant |
| `Instructions.OpFinalize` | protocol/txvm/tx.go:11-25 | keeps the step invariant; TxID becomes the Merkle root of the log and the state is finalized |
| `Instructions.OpTxID` | protocol/txvm/tx.go:27-33 | keeps the step invariant |
| `Instructions.OpVerify` | protocol/txvm/control.go:17-22 | keeps the step invariant |
| `Instructions.OpJumpIf` | protocol/txvm/control.go:24-38 | keeps the step invariant |
| `Instructions.OpCheckSig` | protocol/txvm/crypto.go:49-85 | keeps the step invariant |
| `Instructions.OpOperator` | protocol/txvm/data.go:31-113 | keeps the step invariant |
| `Instructions.Perform` | protocol/txvm/vm.go:158-180 | every instruction except exec and call keeps the step invariant: no asset's balance over stacks and log changes; runlimit never grows and is never driven below zero; pc stays in the program; the log only grows and is frozen once finalized; the log keeps naming exactly the contracts taken in and put out |
| `Stacks.Roll` | protocol/txvm/stack.go:55-68 | the rearranged stack holds the same amount of every asset, nested stacks included |
| `Stacks.Bury` | protocol/txvm/stack.go:70-83 | the rearranged stack holds the same amount of every asset |
| `Stacks.Reverse` | protocol/txvm/stack.go:107-115 | the rearranged stack holds the same amount of every asset |
| `Stacks.RollAndBuryAreInverse` | protocol/txvm/stack.go:55-83 | roll and bury by the same depth undo each other |
| `Stacks.Rearranges` | protocol/txvm/stack.go:55-115 | what roll, bury and reverse do, item by item |
| `Interpreter.Return` | protocol/txvm/contract.go:38-62 | coming back from a program keeps the whole-machine invariant; a contract that ends with items on its stack is an error |
| `Interpreter.Exec` | protocol/txvm/control.go:40-43 | entering a program adds one frame and keeps the whole-machine invariant |
| `Interpreter.Call` | protocol/txvm/contract.go:38-62 | entering a contract sets the caller aside with all it holds and keeps the whole-machine invariant |
| `Interpreter.Instruct` | protocol/txvm/vm.go:158-180 | every instruction lowers the runlimit by at least one and keeps the whole-machine invariant |
| `Interpreter.RunTo` | protocol/txvm/vm.go:137-156 | running a program to its end comes back to exactly the frames below it and keeps the whole-machine invariant |
| `Laws.SplitThenMerge` | protocol/txvm/values.go:73-109 | merging the parts of a split value gives back its amount and asset |
| `Laws.IssueThenRetire` | protocol/txvm/values.go:29-114 | issuing and retiring leaves two log entries of one amount and nothing else |
| `Laws.PutThenGet` | protocol/txvm/contract.go:134-145 | get undoes put |
| `Laws.GetThenPut` | protocol/txvm/contract.go:134-145 | put undoes get |
| `Laws.TupleThenUntuple` | protocol/txvm/data.go:63-85 | untuple takes apart exactly what tuple put together, in the same order |
| `Laws.SuspendedContractResumes` | protocol/txvm/contract.go:38-107 | a contract that yields, or wraps itself with a portable stack, and is then fetched and called by its caller runs the given program with its seed and stack intact; wrap fails exactly on an unportable stack |
| `Subprograms.EntersExec` | protocol/txvm/control.go:40-43 | exec goes to the start of the program it pops and will come back behind itself |
| `Subprograms.ExecComesBack` | protocol/txvm/vm.go:137-156 | however a program that exec runs comes to its end, the caller goes on behind the exec with all that it left |
| `Subprograms.ExecRunsEncoding` | specifications/txvm.md:776-777 | exec of the encoding of any data leaves that data, at its cost and one more, and goes on behind the exec |
| `Subprograms.EntersCall` | protocol/txvm/contract.go:38-53 | call goes to the start of the program of the contract it pops, unwrapped, with the caller's seed as caller, and keeps the caller aside |
| `Subprograms.CallComesBack` | protocol/txvm/contract.go:53-62 | a called contract that suspends itself or leaves nothing comes back to the caller as it was, with the new argument stack and log; one that leaves something fails the run |
| `Subprograms.CallRunsEncoding` | specifications/txvm.md:1166-1187 | a contract of the encoding of any data and a put hands that data to its caller; without the put the call fails |
| `Effects.OpcodeTable` | specifications/txvm.md:833-850 | which instruction each opcode from 2a to 55 stands for, prv failing |
| `Effects.OperatorTable` | specifications/txvm.md:833-850 | which opcodes are operators on plain data, and the kinds of operands each takes |
| `Effects.PushesAtHand` | specifications/txvm.md:1271-1296 | depth, self, caller and contractprogram push what they name, at its cost |
| `Effects.CopiesParts` | specifications/txvm.md:1487-1508 | amount, assetid and anchor copy a part of the value on top and leave the value |
| `Effects.Moves` | specifications/txvm.md:1028-1066 | roll, bury and reverse rearrange the items above rest as drawn there, for n units of runlimit |
| `Effects.MovesFail` | specifications/txvm.md:1036-1055 | counts that are negative or reach below the stack fail |
| `Effects.GetsAndPuts` | specifications/txvm.md:1068-1084 | get and put move the top item of one stack to the top of the other |
| `Effects.Copies` | specifications/txvm.md:1530-1559 | dup and peek copy plain data alone, at its cost |
| `Effects.Drops` | specifications/txvm.md:1540-1547 | drop takes away plain data and zero values, and fails on anything else |
| `Effects.LogsItem` | specifications/txvm.md:1309-1317 | log writes L, the contract's seed and the item |
| `Effects.LogsTimeRange` | specifications/txvm.md:1298-1307 | timerange writes R, the contract's seed and the two bounds in order |
| `Effects.MakesNonce` | specifications/txvm.md:1359-1378 | nonce writes its entry and its time range, and leaves a zero value whose anchor is the hash of the entry |
| `Effects.PeeksLog` | specifications/txvm.md:1319-1329 | peeklog copies the entry at an index, and fails outside the log |
| `Effects.FinalizesThenIdentifies` | specifications/txvm.md:1331-1354 | finalize takes a zero value and writes F, seed, version and anchor; txid then gives the tree hash of the whole log, and fails before |
| `Effects.FinalizedStopsLogging` | specifications/txvm.md:469-471 | after finalize every instruction that logs fails |
| `Effects.MakesContract` | specifications/txvm.md:1250-1259 | contract leaves an empty contract of the program, whose seed is the ContractSeed hash of it |
| `Effects.CopiesSeed` | specifications/txvm.md:1261-1269 | seed copies the seed of the contract on top and leaves the contract |
| `Effects.Suspends` | specifications/txvm.md:1189-1213 | yield and wrap hand the running contract to the argument stack in its new program; wrap makes it portable and needs portable items |
| `Effects.PutsOut` | specifications/txvm.md:1230-1248 | output needs portable items, pays for the snapshot, writes O, the caller and the snapshot ID, and suspends |
| `Effects.TakesIn` | specifications/txvm.md:1215-1228 | input leaves the contract that the tuple describes and writes I, the seed and the snapshot ID |
| `Effects.Verifies` | specifications/txvm.md:1119-1124 | verify fails on the integer zero alone; ext needs the extension flag |
| `Effects.Jumps` | specifications/txvm.md:1126-1139 | jumpif stays on zero, and otherwise goes by the offset from behind itself, exactly if that is in the program |
| `Effects.ChecksSignature` | specifications/txvm.md:1001-1015 | checksig gives false for an empty signature, true exactly for one that verifies, and fails otherwise; other schemes need the extension flag |
| `Effects.Operates` | specifications/txvm.md:866-973 | an operator takes its operands with the last on top and leaves its result at its cost |
| `Effects.Arithmetic` | specifications/txvm.md:891-948 | sums, products and negations fail exactly on overflow; quotient and remainder satisfy a = q*b + r with |r| < |b| and the sign of a |
| `Effects.Logic` | specifications/txvm.md:950-972 | everything but the integer zero is true; eq is equality of integers or strings |
| `Effects.Strings` | specifications/txvm.md:1613-1636 | concatenation, slices with their bounds, lengths, and the three hashes |
| `Effects.Tuples` | specifications/txvm.md:1581-1611 | fields with their bounds, lengths, and encoding |
| `Effects.Bitwises` | specifications/txvm.md:1638-1677 | the bitwise operators byte by byte, failing on different lengths |
| `VirtualMachine.Validate` | protocol/txvm/vm.go:100-135 | the machine object, with its recursion through exec and call, ends in exactly the state or error of the frame machine |
| `VirtualMachine.VM.Exec` | protocol/txvm/vm.go:137-156 | the loop over pc, with runstack pushed and popped, is a run of the frame machine to the end of the program |
| `VirtualMachine.VM.Step` | protocol/txvm/vm.go:158-180 | one step leaves the rest of the run unchanged and lowers the runlimit |
| `VirtualMachine.VM.OpCall` | protocol/txvm/contract.go:38-62 | a call is entering the contract, running it and returning, as frames do it |
| `VirtualMachine.VM.OpExec` | protocol/txvm/control.go:40-43 | an exec is entering the program, running it and returning |
| `VirtualMachine.VM.Perform` | protocol/txvm/vm.go:158-180 | dispatch over the object computes the specified step, error for error |
| `VirtualMachine.RunToNested` | protocol/txvm/vm.go:137-156 | running to a deeper frame first makes no difference to a run |
| `VirtualMachine.EnteringGoesThrough` | protocol/txvm/vm.go:137-156 | an instruction that enters a program amounts to running it and returning |
| `VirtualMachine.VM.OpIssue` | protocol/txvm/values.go:29-43 | the fields change exactly as Instructions.OpIssue says, with the same error otherwise |
| `VirtualMachine.VM.OpSplit` | protocol/txvm/values.go:73-92 | the fields change exactly as Instructions.OpSplit says, with the same error otherwise |
| `VirtualMachine.VM.OpMerge` | protocol/txvm/values.go:94-109 | the fields change exactly as Instructions.OpMerge says, with the same error otherwise |
| `VirtualMachine.VM.OpRetire` | protocol/txvm/values.go:111-114 | the fields change exactly as Instructions.OpRetire says, with the same error otherwise |
| `VirtualMachine.VM.OpNonce` | protocol/txvm/anchors.go:5-16 | the fields change exactly as Instructions.OpNonce says, with the same error otherwise |
| `VirtualMachine.VM.OpContract` | protocol/txvm/contract.go:32-36 | the fields change exactly as Instructions.OpContract says, with the same error otherwise |
| `VirtualMachine.VM.OpOutput` | protocol/txvm/contract.go:64-74 | the fields change exactly as Instructions.OpOutput says, with the same error otherwise |
| `VirtualMachine.VM.OpInput` | protocol/txvm/contract.go:76-89 | the fields change exactly as Instructions.OpInput says, with the same error otherwise |
| `VirtualMachine.VM.OpYield` | protocol/txvm/contract.go:91-96 | the fields change exactly as Instructions.OpYield says, with the same error otherwise |
| `VirtualMachine.VM.OpWrap` | protocol/txvm/contract.go:98-107 | the fields change exactly as Instructions.OpWrap says, with the same error otherwise |
| `VirtualMachine.VM.OpGet` | protocol/txvm/contract.go:134-140 | the fields change exactly as Instructions.OpGet says, with the same error otherwise |
| `VirtualMachine.VM.OpPut` | protocol/txvm/contract.go:142-145 | the fields change exactly as Instructions.OpPut says, with the same error otherwise |
| `VirtualMachine.VM.OpRoll` | protocol/txvm/stack.go:89-96 | the fields change exactly as Instructions.OpRoll says, with the same error otherwise |
| `VirtualMachine.VM.OpBury` | protocol/txvm/stack.go:98-105 | the fields change exactly as Instructions.OpBury says, with the same error otherwise |
| `VirtualMachine.VM.OpReverse` | protocol/txvm/stack.go:107-115 | the fields change exactly as Instructions.OpReverse says, with the same error otherwise |
| `VirtualMachine.VM.OpPeek` | protocol/txvm/stack.go:121-129 | the fields change exactly as Instructions.OpPeek says, with the same error otherwise |
| `VirtualMachine.VM.OpDup` | protocol/txvm/data.go:15-22 | the fields change exactly as Instructions.OpDup says, with the same error otherwise |
| `VirtualMachine.VM.OpDrop` | protocol/txvm/data.go:24-29 | the fields change exactly as Instructions.OpDrop says, with the same error otherwise |
| `VirtualMachine.VM.OpTuple` | protocol/txvm/data.go:63-76 | the fields change exactly as Instructions.OpTuple says, with the same error otherwise |
| `VirtualMachine.VM.OpUntuple` | protocol/txvm/data.go:78-85 | the fields change exactly as Instructions.OpUntuple says, with the same error otherwise |
| `VirtualMachine.VM.OpLog` | protocol/txvm/log.go:9-12 | the fields change exactly as Instructions.OpLog says, with the same error otherwise |
| `VirtualMachine.VM.OpPeekLog` | protocol/txvm/log.go:14-21 | the fields change exactly as Instructions.OpPeekLog says, with the same error otherwise |
| `VirtualMachine.VM.OpTimeRange` | protocol/txvm/time.go:3-7 | the fields change exactly as Instructions.OpTimeRange says, with the same error otherwise |
| `VirtualMachine.VM.OpFinalize` | protocol/txvm/tx.go:11-25 | the fields change exactly as Instructions.OpFinalize says, with the same error otherwise |
| `VirtualMachine.VM.OpTxID` | protocol/txvm/tx.go:27-33 | the fields change exactly as Instructions.OpTxID says, with the same error otherwise |
| `VirtualMachine.VM.OpVerify` | protocol/txvm/control.go:17-22 | the fields change exactly as Instructions.OpVerify says, with the same error otherwise |
| `VirtualMachine.VM.OpJumpIf` | protocol/txvm/control.go:24-38 | the fields change exactly as Instructions.OpJumpIf says, with the same error otherwise |
| `VirtualMachine.VM.OpCheckSig` | protocol/txvm/crypto.go:49-85 | the fields change exactly as Instructions.OpCheckSig says, with the same error otherwise |
| `VirtualMachine.VM.OpOperator` | protocol/txvm/data.go:31-113 | the fields change exactly as Instructions.OpOperator says, with the same error otherwise |
| `VirtualMachine.VM.OpExt` | protocol/txvm/contract.go:147-152 | the fields change exactly as Instructions.OpExt says, with the same error otherwise |
| `VirtualMachine.VM.OpSeed` | protocol/txvm/contract.go:119-127 | the fields change exactly as Instructions.OpSeed says, with the same error otherwise |
| `VirtualMachine.VM.PopN` | protocol/txvm/stack.go:41-49 | the popping loop returns the top n items with the top first and leaves the rest |
| `VirtualMachine.VM.EncodeLog` | protocol/txvm/tx.go:18-21 | the loop over the log yields the encoding of every entry in order |
| `VirtualMachine.VM.StackPortable` | protocol/txvm/contract.go:158-165 | the scan finds exactly whether every item is portable |
| `Varint.UvarintRoundTrip` | protocol/txvm/op/op.go:153-170 | decoding undoes encoding for every uint64, whatever bytes follow |
| `Varint.UvarintExactly` | protocol/txvm/data.go:104-113 | decoding takes the bytes up to the first short one and their low bits, and fails exactly if there is none or the value has more than 64 bits |
| `Opcodes.DecodesLocally` | protocol/txvm/op/op.go:153-170 | an instruction is decoded from its own bytes whatever follows, and from no fewer; its data are as long as its opcode says |
| `Compilation.RunsEncode` | protocol/txvm/item.go:103-109 | from any state and inside any longer program, running Encode(v) costs exactly Cost(v), pushes exactly v and stops exactly at the end of its bytes |
| `Compilation.RunsTuple` | protocol/txvm/data.go:63-76 | the tuple instruction collects exactly the items below its count, in order |
| `Compilation.RunsVarint` | protocol/txvm/data.go:104-113 | pushing the varint of an int64 and converting it gives the integer back, sign included |
| `Compilation.RunsPushInt64` | protocol/txvm/asm/asm.go:322-332 | the integer encoder of the assembler, which negates at run time, pushes the same integer for every int64 including the minimum |
| `Compilation.PushInt64Forms` | protocol/txvm/txvmutil/builder.go:146-159 | the builder and assembler form is Encode, or Encode of the negation followed by neg |
| `Compilation.DecodesPushdata` | protocol/txvm/item.go:111-117 | a pushdata is decoded as one instruction with exactly its data, whatever follows |
| `Transfers.EncodeIsInjective` | protocol/txvm/item.go:57-117 | different data have different encodings |
| `Items.UninspectInspect` | protocol/txvm/item.go:119-156 | every item survives inspection, with arbitrarily nested contract stacks |
| `Items.UninspectInspectContract` | protocol/txvm/entries.go:99-143 | uninspect(inspect(c)) is c |
| `Items.InspectedForms` | specifications/txvm.md:779-807 | the type codes and fields of inspected data, values, contracts and wrapped contracts |
| `Items.InspectUninspect` | protocol/txvm/item.go:119-156 | a tuple that uninspects to an item is the inspected form of that item, if no integer, string or tuple in it carries more fields than its own |
| `Transfers.SnapshotDeterminesContract` | protocol/txvm/contract.go:22-30 | a tuple with the encoding of a contract's snapshot uninspects to that very contract |
| `Transfers.InputRestoresOutput` | protocol/txvm/contract.go:64-89 | an input whose logged ID is that of an earlier output restores the same seed, program and stack, or the two snapshots are a hash collision |
| `Assembler.Resolve` | protocol/txvm/asm/asm.go:235-320 | terminates; succeeds exactly when every jump's label exists; the encodings found agree with their own lengths, no solution has a shorter encoding anywhere, and the bytes are their concatenation |
| `Assembler.Pass` | protocol/txvm/asm/asm.go:250-309 | one pass never shortens an encoding; if it changes no length it leaves every jump settled, and it reports no change exactly on settled ones |
| `Assembler.RefineAdj` | protocol/txvm/asm/asm.go:286-300 | the inner loop ends at the least length that is enough for the displacement it leads to |
| `Assembler.FindLabels` | protocol/txvm/asm/asm.go:236-241 | the map holds the last position of every label and nothing else |
| `Assembler.EncodeJump` | protocol/txvm/asm/asm.go:258-302 | the encoding is the specified one for the present lengths |
| `Assembler.AdjIsLeast` | protocol/txvm/asm/asm.go:286-300 | the length reached is at most any length that suffices |
| `Assembler.JumpCodeGrows` | protocol/txvm/asm/asm.go:258-302 | longer items in between never make a jump's own encoding shorter |
| `Assembler.UpdateKeepsLeast` | protocol/txvm/asm/asm.go:303-306 | replacing one encoding keeps all of them below every solution |
| `Assembler.DisplacementReachesLabel` | protocol/txvm/asm/asm.go:265-302 | in a settled list each displacement, added to the offset after its jumpif, is exactly the offset of its label |
| `Assembler.JumpLandsOnLabel` | protocol/txvm/control.go:24-38 | running an assembled jump, wherever the code lies in a program, puts pc exactly at its label and changes nothing else but the runlimit |
| `Assembler.JumpIfLandsOnLabel` | protocol/txvm/control.go:24-38 | running an assembled jumpif puts pc at its label if the condition holds and behind itself if not, consuming the condition |
| `Merkle.PrevPowerOfTwo` | protocol/merkle/merkle.go:54-63 | the result is the power of two k with k < n <= 2k |
| `Merkle.RootIsTreeHash` | protocol/merkle/merkle.go:19-49 | Root is the Merkle tree hash of section 2.1 of RFC 6962, which splits at the largest power of two below n |
| `Merkle.Collision` | protocol/merkle/merkle.go:19-49 | from two different lists with one root, two different strings with one hash are computed, one hashed for the first list and one for the second |
| `Merkle.RootBindsList` | protocol/merkle/merkle.go:19-49 | lists with one root are equal, or two strings hashed while computing the two roots collide |
| `Patricia.LookupIsMembership` | protocol/patricia/patricia.go:79-92 | lookup answers membership, and fails exactly on proper extensions of an element |
| `Patricia.InsertAddsKey` | protocol/patricia/patricia.go:118-164 | insert fails exactly on proper prefixes and proper extensions of an element; otherwise the tree stays valid and its set gains the key |
| `Patricia.DeleteRemovesKey` | protocol/patricia/patricia.go:173-203 | delete removes exactly the key, keeps the tree valid, and fails exactly on proper extensions of an element |
| `Patricia.EqualLengthsNeverConflict` | protocol/state/snapshot.go:119-176 | among keys of one length nothing conflicts and no search fails |
| `Patricia.WalkIsSorted` | protocol/patricia/patricia.go:54-66 | walk lists every element once, in strictly ascending lexicographic order |
| `Patricia.ElementsArePrefixFree` | protocol/patricia/patricia.go:94-99 | the elements of a valid tree are never proper prefixes of one another |
| `Patricia.FromKeysHasKeys` | protocol/state/serialize.go:60-69 | inserting a prefix-free list of keys succeeds and yields exactly their set |
| `Bits.HasPrefixIsBitPrefix` | protocol/patricia/patricia.go:239-253 | the masked comparison holds exactly when the bits up to keybit are a prefix |
| `Bits.ChildIdxIsNextBit` | protocol/patricia/patricia.go:263-271 | the child index is the bit right after the prefix |
| `PatriciaHash.HashIsMpth` | specifications/blockchain.md:301-338 | the hash of every valid tree is the recursive MPTH of its set: split at the bit after the longest common prefix |
| `PatriciaHash.RootHashIsOfTheSet` | protocol/patricia/patricia.go:206-212 | the root hash is a function of the set alone, so histories with the same final set give the same root |
| `PatriciaHash.RebuiltTreeIsTheSame` | protocol/state/serialize.go:51-69 | writing out a tree's elements and inserting them again gives the same set and root |
| `PatriciaHash.Collision` | protocol/patricia/patricia.go:288-304 | from two trees with different elements and one hash, two different strings with one hash are computed, one hashed in the first tree and one in the second |
| `PatriciaHash.RootBindsSet` | protocol/patricia/patricia.go:206-212 | trees with one root hash have the same elements, or two strings hashed in the two trees collide |
| `PatriciaTree.CommonPrefix` | protocol/patricia/patricia.go:214-237 | the byte and bit counters end exactly at the longest common bit prefix |
| `PatriciaTree.Node.CalcHash` | protocol/patricia/patricia.go:288-304 | fills in missing hashes below the node, each equal to its recomputation, and changes none that is there |
| `PatriciaTree.LookupNode` | protocol/patricia/patricia.go:79-92 | the recursion over nodes computes the specified search |
| `PatriciaTree.InsertNode` | protocol/patricia/patricia.go:118-164 | path copying builds the specified tree from fresh and shared nodes; every memoised hash stays right |
| `PatriciaTree.DeleteNode` | protocol/patricia/patricia.go:173-203 | path copying builds the specified tree; where nothing is deleted the very same node comes back |
| `PatriciaTree.Tree.Contains` | protocol/patricia/patricia.go:69-77 | agrees with the set |
| `PatriciaTree.Tree.Insert` | protocol/patricia/patricia.go:100-116 | fails exactly on a conflicting key and then changes nothing; otherwise adds it; every other tree, an earlier copy included, stays valid and keeps its set |
| `PatriciaTree.Tree.Delete` | protocol/patricia/patricia.go:167-171 | removes the key from the set; every other tree stays valid and keeps its set |
| `PatriciaTree.Tree.RootHash` | protocol/patricia/patricia.go:206-212 | returns the MPTH of the current set; the hashes filled in keep every tree that shares the nodes valid |
| `PatriciaTree.Tree.Walk` | protocol/patricia/patricia.go:47-52 | returns exactly the set, in lexicographic order |
| `PatriciaTree.Tree.CopyOf` | protocol/state/snapshot.go:52-66 | a copy shares the nodes and has the same set |
| `PatriciaTree.TreeFromBytes` | protocol/state/serialize.go:60-69 | the rebuilt tree has exactly the keys as its set, and any prefix-free list succeeds |
| `Blocks.NonceTimeOfCommitment` | protocol/state/snapshot.go:196-207 | idTime recovers the expiry a commitment was made with |
| `Blocks.AddsExactly` | protocol/state/snapshot.go:124-150 | nonces are added exactly if all are new, to the state and to one another, and name no block, the initial one or a known one; then all of their commitments are in the tree |
| `Blocks.MovesExactly` | protocol/state/snapshot.go:152-170 | contracts move exactly if each one taken in is there at its turn, and afterwards exactly those are there that were put out last or never taken in |
| `Blocks.AppliesExactly` | protocol/state/snapshot.go:119-176 | the same for whole transactions |
| `Blocks.PrunesExactly` | protocol/state/snapshot.go:34-47 | a nonce commitment survives pruning exactly if its expiry is not past |
| `Blocks.HeaderAppliesExactly` | protocol/state/snapshot.go:100-116 | height one is for states without a first block and other heights for states with one; the header and its ID are recorded |
| `Generation.GeneratedBlockApplies` | protocol/block.go:48-119 | for any transactions, ApplyBlock of the generated block on the old state gives exactly the generator's new state although header and transactions are applied in another order, and the declared roots are the MPTH of its sets |
| `Generation.GeneratorAndValidatorAgree` | protocol/block.go:48-119 | the block also passes BlockPrev and BlockOnly if all versions are in range, no runlimit is negative and the reference count can be incremented |
| `TxLog.GeneratorAndValidatorAgreeOnValid` | protocol/block.go:48-119 | for transactions of version 3 read off valid runs the same holds without any condition on runlimits |
| `TxLog.ValidRunlimitIsNatural` | protocol/txvm/vm.go:100-120 | a program that validates has a runlimit of at least its length, so never a negative one |
| `Generation.GeneratedBlockFollows` | protocol/validation/validation.go:129-146 | a generated block passes BlockPrev exactly when the previous version is at most 3 and its reference count can be incremented |
| `Generation.FullRefsCountIsRejected` | protocol/block.go:64-67 | on a state whose reference count is the largest int64, the generator makes a block that BlockPrev rejects |
| `Generation.GeneratedBlockIsAccepted` | protocol/validation/validation.go:100-125 | transactions that are all in time, fit and apply are all in the generated block, and it passes BlockOnly exactly when all have version 3 and no total of runlimits from some transaction on, as it wraps, is negative |
| `Generation.NegativeRunlimitIsRejected` | protocol/block.go:84-101 | offered runlimits 5 and -3, the generator makes a block with both that BlockOnly rejects |
| `Generation.GenerateSucceeds` | protocol/block.go:48-119 | on an initialised state generation succeeds exactly for a later timestamp, and the block lists the chosen transactions |
| `Generation.GeneratedBlockIsTimely` | protocol/tx.go:13-31 | a generated block holds at most 10000 transactions, the block time is in every time range of each, and no nonce lasts beyond the window; the header follows from the one before |
| `Generation.ChoosesExactly` | protocol/block.go:77-103 | after any candidates, one more is chosen exactly if there is room, it is in time, the runlimit stays an int64 and it applies to the state so far |
| `Generation.BlockOnlyExactly` | protocol/validation/validation.go:100-125 | without negative runlimits a block is accepted exactly if its versions and extra fields are right, its runlimit covers its transactions, and its root is the tree hash of their commitments |
| `Generation.BlockOnlyBindsTransactions` | protocol/validation/validation.go:115-118 | whatever the runlimits, an accepted block declares the tree hash of its own transactions' commitments |
| `Generation.SufficesIfCovering` | protocol/validation/validation.go:103-113 | a block runlimit that is not negative suffices exactly if it covers the transactions; a negative one counts for 2^64 more once the first subtraction wraps it |
| `Generation.NegativeBlockRunlimitIsAccepted` | protocol/validation/validation.go:109-112 | a block whose runlimit is the least int64 is accepted with a transaction of runlimit 1 |
| `Generation.ValidateBlockOnly` | protocol/validation/validation.go:100-125 | the loop that counts the runlimit down accepts exactly the blocks that meet the predicate |
| `Generation.ApplyTxCommutes` | protocol/state/snapshot.go:119-176 | a transaction that applies before a header applies after it too, with the same effect |
| `History.NoDoubleSpend` | protocol/state/snapshot.go:119-176 | from the empty state, accepted inputs of a contract ID plus one if it is present never exceed its accepted outputs |
| `NonceReplay.NoNonceReplay` | protocol/block.go:54-105 | along any chain of blocks generated from transactions of valid runs a nonce commitment of positive expiry is accepted at most once |
| `NonceReplay.ReplayExactly` | protocol/state/snapshot.go:34-47 | for a transaction of a valid run that does nothing but use one nonce, and any block times, valid transactions can make the chain accept that nonce twice exactly if two of the times let it in, the later one past its expiry |
| `NonceReplay.NonceTxIsValid` | protocol/txvm/anchors.go:5-16 | for every int64 expiry the program that pushes its operands, makes a nonce and finalizes runs to a valid transaction that lists just that nonce and its time range |
| `History.PlanReplays` | protocol/block.go:54-105 | offered in two blocks at such times and nothing else, the transaction is accepted in both |
| `History.ReplayNeedsTwoTimes` | protocol/tx.go:13-31 | whenever a nonce is used, the block time lets it in and it was not remembered; a second use comes after its expiry |
| `NonceReplay.UnendingExpiryIsReplayed` | protocol/state/snapshot.go:34-47 | for the transaction of that program an expiry of zero is replayed by any two blocks, and a negative one, where there is no nonce window, by two blocks of which the second is past it |
| `History.UsedNonceIsAccepted` | protocol/tx.go:13-31 | a transaction that passes the time check carries no nonce whose own time range or window rules the time out |
| `TxLog.EntryHook` | protocol/bc/tx.go:146-207 | one pass over the log lists exactly its contracts, time ranges, nonces, inputs, outputs, issuances and retirements with their log positions, in order, and the anchor |
| `Listings.NonceIsListed` | protocol/bc/tx.go:193-204 | a nonce is listed under the anchor it leaves, with the block it names and its expiry, and its time range from zero |
| `Listings.TimeRangeIsListed` | protocol/bc/tx.go:188-191 | a time range is listed with its two bounds in order |
| `Listings.InputIsListed` | protocol/bc/tx.go:156-161 | a contract taken in is listed under the hash of its tuple, with the position of its entry |
| `Listings.OutputIsListed` | protocol/bc/tx.go:163-168 | a contract put out is listed under its snapshot ID, with the position of its entry |
| `Listings.IssuanceIsListed` | protocol/bc/tx.go:170-177 | an issuance is listed with the amount, asset and anchor of the value it leaves, and its position |
| `Listings.RetirementIsListed` | protocol/bc/tx.go:179-186 | a retirement is listed with the amount, asset and anchor of the value it took, and its position |
| `Listings.AnchorIsListed` | protocol/bc/tx.go:153-154 | the anchor is that of the value a transaction was finalized with |
| `TxLog.ListsAreComplete` | protocol/bc/tx.go:146-207 | on a well-formed log no input, output, time range or nonce entry is passed over: the lists are as long as there are entries of their code |
| `TxLog.BookingsAddUp` | protocol/bc/tx.go:173-196 | where the entries of a code name assets by 32 bytes, the listed amounts of an asset add up to what the log says of it |
| `TxLog.ValidListsAddUp` | protocol/bc/tx.go:146-207 | on the log of every valid run the lists are complete, the listed issuances of each asset add up to what was issued, and the anchor is that of the last entry |
| `TxLog.ValidTransactionsAreDated` | protocol/txvm/anchors.go:5-16 | in every valid transaction each nonce comes with a time range ending at its expiry |
| `Commits.EveryRunIsConsistent` | protocol/block.go:124-189 | under every interleaving of any number of threads that commit blocks or, as the generator does, blocks with the state they lead to, with crashes anywhere, no commit fails, the published state is the fold of blocks 1..h, and recovery yields the fold of all saved blocks |
| `Commits.ActKeeps` | protocol/protocol.go:199-230 | every step keeps consistency, and except for a crash no height decreases |
| `Commits.BeginningApplied` | protocol/block.go:124-139 | a generator that brings the next block together with its state keeps consistency and lowers no height |
| `Commits.RecoverRestoresAll` | protocol/recover.go:18-70 | from any consistent state Recover gives the fold of all saved blocks |
| `Commits.SavingExtends` | protocol/prottest/memstore/memstore.go:37-47 | saving a block again changes nothing, and saving the next one extends the stored prefix |
| `Commits.SavedBlocksStay` | protocol/prottest/memstore/memstore.go:37-47 | saving fails exactly if another block is saved at that height; otherwise the block is saved and no other is lost or replaced |
| `Commits.BlocksAreNeverReplaced` | protocol/block.go:124-189 | through every step of any threads on any blocks, and through crashes, a saved block is never replaced by one with another ID |
| `Commits.PublishesDeclaredRoots` | protocol/block.go:159-170 | a block that is applied and published declares the two roots of the state it leads to, which ends with its header |
| `Commits.AloneCommits` | protocol/block.go:144-189 | a thread that is not disturbed has, after four steps, saved its block and published a state that includes it |
| `Commits.ReplayChecks` | protocol/recover.go:44-57 | every block that recovery replays is on file, applies, and declares the contracts root it leads to |
| `Commits.RecoveryNeedsBlock` | protocol/recover.go:23-30 | recovery succeeds only if the block that the stored state ends with is on file, and every later one |
| `Commits.NextApplies` | protocol/block.go:159-170 | block k+1 applies to the state after k blocks, root checks included, and gives the state after k+1 |
| `Commits.RecoveryAdvances` | protocol/recover.go:18-70 | recovery, which may store an empty snapshot and queue the recovered one, keeps consistency and lowers no height |
| `Commits.GeneratedBlockCommits` | protocol/block.go:144-171 | every block generated on the current state passes the application and both root checks of CommitBlock and gives the generator's state |
| `Chains.RootOf` | protocol/patricia/patricia.go:206-212 | the root hash of a tree object is the MPTH of its set; every other tree stays valid and keeps its set |
| `Chains.PrunedTree` | protocol/state/snapshot.go:34-47 | walking the nonce tree and deleting expired commitments from a copy leaves exactly those not expired, in fresh and shared nodes |
| `Chains.Snapshot.PruneNonces` | protocol/state/snapshot.go:34-47 | the nonces kept are exactly those not yet expired, and the old tree is not touched |
| `Chains.Snapshot.ApplyBlockHeader` | protocol/state/snapshot.go:100-116 | computes the specified state or error, and changes nothing on error |
| `Chains.Snapshot.CheckNonces` | protocol/state/snapshot.go:124-150 | inserting into a copy of the nonce tree computes the specified tree or the first error |
| `Chains.Snapshot.CheckContracts` | protocol/state/snapshot.go:152-170 | deleting from and inserting into a copy of the contract tree computes the specified tree or the first error |
| `Chains.Snapshot.ApplyTx` | protocol/state/snapshot.go:119-176 | computes the specified state or error; a failing transaction leaves both tree objects as they were |
| `Chains.Snapshot.ApplyBlock` | protocol/state/snapshot.go:80-96 | computes the specified state or error; its nodes are fresh or shared with the state before |
| `Chains.Snapshot.Copy` | protocol/state/snapshot.go:52-66 | a copy is a new object with new trees over the same nodes |
| `Chains.MemStore.SaveBlock` | protocol/prottest/memstore/memstore.go:37-47 | refuses a block exactly when another one with a different ID is stored at its height |
| `Chains.MemStore.SaveSnapshot` | protocol/prottest/memstore/memstore.go:50-56 | stores a fresh copy |
| `Chains.MemStore.LatestSnapshot` | protocol/prottest/memstore/memstore.go:70-78 | returns a fresh copy of the stored state, storing the empty one first if there is none |
| `Chains.ChooseTxs` | protocol/block.go:77-103 | the loop over the candidates on a pruned copy yields exactly the specified draft |
| `Chains.MakeBlock` | protocol/block.go:105-118 | the block carries the root hashes of the draft's own trees, which are the specified roots |
| `Chains.Chain.GenerateBlock` | protocol/block.go:48-119 | yields exactly the specified block and new state, and leaves every snapshot of the chain as it was |
| `Chains.Chain.SetState` | protocol/protocol.go:199-214 | an older state than the current one is ignored; otherwise it is published and the height raised |
| `Chains.Chain.SetHeight` | protocol/protocol.go:216-230 | the height never decreases |
| `Chains.Chain.QueueSnapshot` | protocol/block.go:191-201 | a snapshot is queued exactly if an hour has passed since the last one and none is waiting, and its time is noted |
| `Chains.Chain.SavePending` | protocol/protocol.go:160-178 | the waiting snapshot, if any, becomes the stored one |
| `Chains.Chain.Finalize` | protocol/block.go:173-189 | publishes the state as the commit protocol specifies |
| `Chains.ApplyToCopy` | protocol/block.go:159-169 | applies a block to a copy and accepts it exactly if it applies and both tree objects have the declared roots; every snapshot sharing nodes stays as it was |
| `Chains.Chain.CommitBlock` | protocol/block.go:144-171 | does exactly the steps of the commit protocol; on success the block is on file and the published state reaches its height; no block on file is replaced; the published state changes only to one that ends with the block and has the roots it declares, queued exactly if due |
| `Chains.Chain.CommitAppliedBlock` | protocol/block.go:124-139 | saves the block, replaces none, and publishes the given state exactly if both block and state are newer |
| `Chains.ReplayBlocks` | protocol/recover.go:44-57 | brings a snapshot up to date with all stored blocks, or reports the first failure |
| `Chains.Chain.Recover` | protocol/recover.go:18-70 | recovers and publishes exactly as the recovery step of the protocol specifies; the published height does not fall and reaches the recovered one |
| `Supply.SupplyIsConserved` | protocol/txvm/doc.go:11-13 | on every chain of blocks of valid transactions, for every asset, what the contracts in the state hold, what was retired and what was lost in outputs present already add up to what was issued; neither holdings nor losses are negative, nothing is lost if no contract is put out twice, and each ID in the state is that of a contract put out; all this unless two different contracts of the chain have one ID |
| `Supply.MovesConserve` | protocol/state/snapshot.go:152-170 | as the state takes contracts in and puts them out, what the live ones hold grows by exactly what was put out less what was taken in and what was lost |
| `Supply.MovesAreNatural` | protocol/state/snapshot.go:152-170 | if outputs hold nothing negative while the inputs before them do not, neither do the live contracts, and no loss is negative |
| `Supply.NothingLost` | protocol/state/snapshot.go:164-168 | if no contract is put out a second time, no amount is lost |
| `Supply.RefsOfRun` | protocol/bc/tx.go:146-172 | the contracts that a transaction lists are, in order, the IDs of those its run moved |
| `Supply.TakingIn` | protocol/state/snapshot.go:158-162 | a contract taken in is one that was put out, so it is not negative, and it leaves the live ones |
| `Supply.PuttingOut` | protocol/state/snapshot.go:164-168 | a contract put out joins the live ones unless it is there already |
| `Bindings.AssetBindsIssuer` | protocol/txvm/values.go:37-50 | values of one asset were issued by contracts of one seed under one tag, or two strings collide |
| `Bindings.SeedBindsProgram` | protocol/txvm/contract.go:167-171 | contracts of one seed were made of one program, or two strings collide |
| `Bindings.AnchorBindsNonce` | protocol/txvm/anchors.go:5-33 | values with one nonce anchor were made for one caller, seed, block and expiry, or two strings collide |
| `Bindings.TxIDBindsLog` | protocol/txvm/tx.go:11-33 | runs with one transaction ID have one log, or two strings hashed for it collide |
| `Bindings.CommitmentBindsWitness` | protocol/bc/tx.go:215-240 | a witness commitment binds the transaction ID, version, runlimit and program |
| `Bindings.BlockIDBindsHeader` | protocol/bc/blockheader.go:13-60 | a block ID binds every field of the header |
| `Bindings.LinkedAdvance` | protocol/validation/validation.go:129-146 | along headers that each follow the one before, heights count up, time goes forward, versions do not fall and reference counts grow by one at most |
| `Bindings.BlockIDBindsHistory` | protocol/validation/validation.go:136-138 | chains from height one whose last headers have one ID are one chain, or two of their headers collide |
| `Bindings.TransactionsRootBindsBlock` | protocol/validation/validation.go:115-118 | accepted blocks with one transactions root hold the same commitments in the same order, or two strings hashed collide |
| `Bindings.RootsBindState` | protocol/block.go:164-169 | blocks with the same two roots lead, wherever they are committed, to the same contracts and nonces, up to collisions |
| `FieldArithmetic.FeMul` | crypto/ed25519/internal/edwards25519/edwards25519.go:375-426 | for limbs within 1.1*2^26 and 1.1*2^25, no int32 or int64 operation overflows, the result is f*g modulo 2^255-19 and its limbs are within 1.01*2^25 and 1.01*2^24; h may be f or g |
| `FieldArithmetic.FeCombine` | crypto/ed25519/internal/edwards25519/edwards25519.go:259-346 | the twelve carries keep the value modulo 2^255-19 without overflow and bring the limbs within 1.01*2^25 and 1.01*2^24 |
| `FieldArithmetic.Carry` | crypto/ed25519/internal/edwards25519/edwards25519.go:269-274 | a carry keeps the value, rounds its limb to nearest, and touches no other |
| `FieldArithmetic.Wrap` | crypto/ed25519/internal/edwards25519/edwards25519.go:324-326 | the carry out of the last limb comes back times 19 and keeps the value modulo 2^255-19 |
| `FieldArithmetic.ColumnsMultiply` | crypto/ed25519/internal/edwards25519/edwards25519.go:414-423 | the ten sums of products together are the product of the operands modulo 2^255-19 |
| `FieldArithmetic.SquareLimbs` | crypto/ed25519/internal/edwards25519/edwards25519.go:428-465 | the squaring with shared terms computes exactly the ten sums of f times f, without overflow |
| `FieldArithmetic.FeSquare` | crypto/ed25519/internal/edwards25519/edwards25519.go:474-477 | the result is f*f modulo 2^255-19, within bounds |
| `FieldArithmetic.FeSquare2` | crypto/ed25519/internal/edwards25519/edwards25519.go:489-504 | the result is 2*f*f modulo 2^255-19, within bounds, for limbs within 1.65*2^26 |
| `FieldInversion.FeInvert` | crypto/ed25519/internal/edwards25519/edwards25519.go:506-559 | the result is the multiplicative inverse of z modulo P, or zero if z is zero there, within bounds; the addition chain raises z to the power P - 2 |
| `FieldInversion.PowerInverts` | crypto/ed25519/internal/edwards25519/edwards25519.go:506-559 | modulo P the power P - 2 of anything but zero is its inverse |
| `FieldPrime.FieldIsPrime` | crypto/ed25519/internal/edwards25519/edwards25519.go:11-13 | 2^255 - 19 is prime, so its residues are a field: a chain of five certificates |
| `Primes.Fermat` | crypto/ed25519/internal/edwards25519/edwards25519.go:506-559 | for every prime p, the power p - 1 of anything that p does not divide is one modulo p |
| `Primes.Pocklington` | crypto/ed25519/internal/edwards25519/edwards25519.go:11-13 | a number n is prime if a large enough prime q divides n - 1 and some number has order q modulo n and modulo all its factors |
| `FieldInversion.Append` | crypto/ed25519/internal/edwards25519/edwards25519.go:519-523 | squaring k times and multiplying turns exponents of m and k one-bits into one of m + k one-bits |
| `FieldInversion.PowersMultiply` | crypto/ed25519/internal/edwards25519/edwards25519.go:506-559 | products of powers modulo P are powers with added exponents |
| `Recoding.Slide` | crypto/ed25519/internal/edwards25519/edwards25519.go:844-872 | digits are zero or odd in [-15,15] with at least four zeros after each; their weighted sum is the scalar modulo 2^256, and the scalar itself exactly if rounding it window by window never reaches the next power of two, as whenever a[31] <= 127 and up to the bound of LeastLost |
| `Recoding.Window` | crypto/ed25519/internal/edwards25519/edwards25519.go:850-870 | the six-bit window keeps the value of the digits from i on, except for a carry lost off the end |
| `Recoding.AddOne` | crypto/ed25519/internal/edwards25519/edwards25519.go:858-864 | the carry loop adds one at its bit, and loses 2^256 exactly when all bits from there are set |
| `Recoding.SmallKeepsAll` | crypto/ed25519/internal/edwards25519/edwards25519.go:844-872 | rounding a scalar of n bits never goes too far up to the number with bits n-1, n-6, n-11 and so on set |
| `Recoding.NextIsLost` | crypto/ed25519/internal/edwards25519/edwards25519.go:856-864 | one more than that number, at lengths that are multiples of five, loses its top carry |
| `Recoding.LeastLost` | crypto/ed25519/internal/edwards25519/edwards25519.go:844-872 | no scalar up to 2^255 + 2^250 + ... + 2^5 + 2^0 loses a carry, and the next one does |
| `Recoding.StepKeepsAll` | crypto/ed25519/internal/edwards25519/edwards25519.go:849-871 | a step loses a carry exactly when its rounding goes too far |
| `Recoding.WindowTakesDigit` | crypto/ed25519/internal/edwards25519/edwards25519.go:850-870 | the window takes off the residue modulo 32 nearest to zero |
| `Recoding.ScalarOfBits` | crypto/ed25519/internal/edwards25519/edwards25519.go:845-847 | the bits extracted stand for the little-endian scalar |
| `Recoding.Radix16` | crypto/ed25519/internal/edwards25519/edwards25519.go:969-986 | the digits always stand for the scalar; digits 0 to 62 lie in [-8,7]; the last lies in [0,8] exactly for scalars up to 8*16^63 plus 63 sevens in radix 16, and so whenever a[31] <= 127 |
| `Recoding.CarryDigits` | crypto/ed25519/internal/edwards25519/edwards25519.go:979-984 | the carry loop brings digits 0 to 62 into [-8,7] and keeps the value of digits and carry together |
| `Recoding.LastDigitIsSmall` | crypto/ed25519/internal/edwards25519/edwards25519.go:985-986 | with the lower digits in range, the last digit is at most 8 exactly up to that bound |
| `Recoding.CarryKeepsValue` | crypto/ed25519/internal/edwards25519/edwards25519.go:980-984 | one step of the carry keeps the value of digits and carry together |
| `SpongeConstruction.AbsorbInParts` | crypto/sha3/sha3.go:128-160 | absorbing can be interrupted anywhere if the incomplete block is kept |
| `SpongeConstruction.PaddingIsInjective` | crypto/sha3/sha3.go:101-124 | padding fills whole blocks, and no two messages are padded to one string |
| `SpongeConstruction.SqueezedByte` | crypto/sha3/sha3.go:163-184 | byte k of output block j is byte k of the state after j further permutations, however many bytes are taken |
| `SpongeConstruction.SqueezePrefix` | crypto/sha3/sha3.go:163-184 | taking more output does not change what comes first |
| `Sha3.OutputInParts` | crypto/sha3/sha3.go:163-184 | two reads in a row are one |
| `Sha3.HashInParts` | crypto/sha3/sha3.go:128-184 | for every way of splitting input over Write calls and output over Read calls, the bytes read are the one-shot sponge output (sections 4 and 5.1 of FIPS 202) |
| `Lanes.XorOneLane` | crypto/sha3/xor_generic.go:12-20 | xoring a little-endian lane is xoring its eight bytes |
| `Lanes.LanesRoundTrip` | crypto/sha3/xor_generic.go:12-28 | reading lanes from the bytes of lanes gives them back |
| `Sha3.Hash.constructor` | crypto/sha3/sha3.go:24-50 | a new sponge has absorbed nothing |
| `Sha3.Hash.Reset` | crypto/sha3/sha3.go:60-67 | a reset sponge has absorbed nothing |
| `Sha3.Hash.Write` | crypto/sha3/sha3.go:128-160 | appends to the message whatever the split into calls, fast and slow path alike; refused once output has been read |
| `Sha3.Hash.Read` | crypto/sha3/sha3.go:163-184 | fills out with the next bytes of the one-shot sponge output (sections 4 and 5.1 of FIPS 202) for everything written |
| `Sha3.Hash.PadAndPermute` | crypto/sha3/sha3.go:101-124 | the state becomes that of the message padded with the domain byte and pad10*1 |
| `Sha3.Hash.Permute` | crypto/sha3/sha3.go:82-97 | absorbing, xors in the buffer before the permutation; squeezing, copies a new block out after it |
| `Sha3.Hash.XorIn` | crypto/sha3/xor_generic.go:12-20 | the lane loop xors the block into the bytes of the state |
| `Sha3.Hash.CopyOut` | crypto/sha3/xor_generic.go:23-28 | the lane loop yields the first rate bytes of the state |
| `Sha3.Hash.Clone` | crypto/sha3/sha3.go:69-78 | absorbing, the copy is exact; squeezing, it fails or starts to read 168 - rate bytes before the original |
| `Sha3.CloneInStep` | crypto/sha3/sha3.go:69-78 | a copy of a squeezing sponge is in step with the original exactly at rate 168 |
| `Sha3.Hash.Sum` | crypto/sha3/sha3.go:188-195 | appends the output from where the copy starts, from the first byte if absorbing, fails exactly if copying fails, and leaves the sponge as it was |

## Left out

- Contracts are values, not pointers: the source moves a contract between stacks and never keeps two references, so aliasing of contracts and of Go slices with spare capacity is not modelled.
- Hooks, tracing and StopAfterFinalize of the VM: they observe a run or end it early with residue allowed. The contracts that the input and output hooks see are kept as a list in the machine state.
- The scanner, macros and Disassemble of the assembler: text handling.
- Builder and TupleBuilder as objects that run caller-supplied closures: their integer encoder is covered by `Compilation.RunsPushInt64`; their tuples would repeat `Compilation.RunsEncode`.
- Protobuf, JSON and SQL forms of blocks and snapshots; a snapshot's bytes do not contain its reference IDs, so only the trees are rebuilt.
- Commands, logging, block signatures (BlockSig) and the goroutines and condition variables behind waiting for heights.
- Elliptic-curve group operations, precomputed tables, FeFromBytes and FeToBytes.
- Merkle.PrevPowerOfTwo: the floating-point logarithm of the source is modelled as the power of two it is meant to find.
- The channel that holds a queued snapshot and the goroutine that empties it: a pending snapshot may or may not have been saved when a crash comes.
- Compilation.RunsEncode: lengths of strings and tuples are at most 2^63 - 1, as Go lengths always are.
- Assembler.Resolve: the items together are at most 2^62 bytes long, so that offsets are int64; each jump's opcodes are kept in a sequence beside the items instead of in the jump object.
- PatriciaTree.Tree.Contains: not called with a proper extension of an element, where the source follows a missing child; `Patricia.EqualLengthsNeverConflict` shows that keys of one length never are.
- PatriciaTree.Tree.Delete: not called with a proper extension of an element, for the same reason.
- Chains.Snapshot.ApplyTx: the error of a failing tree insertion is absent, because among IDs of one length none fails.
- Generation.GeneratorAndValidatorAgree: holds for an initialised state of version at most 3 and transactions of version 3 with runlimits that are not negative; `Generation.GeneratedBlockIsAccepted` and `Generation.GeneratedBlockFollows` give the exact conditions for each check, and `TxLog.GeneratorAndValidatorAgreeOnValid` needs no condition on runlimits.
- FieldArithmetic.FeCombine: the ten limb variables are a sequence of ten that is updated limb by limb.
- cSHAKE, KMAC and the exact form of bytepad.
- Sha3.Hash.Read: the buffer is a sequence of the bytes not yet read instead of a slice into fixed storage.
- Bindings.AssetBindsIssuer: for contract seeds of 32 bytes, as contracts made by the contract instruction have; a tuple taken in may name a seed of another length.
- Bindings.TxIDBindsLog: for log entries whose strings and tuples have lengths that fit an int64, as Go lengths always do.
- Generation.BlockOnlyExactly: for runlimits that are not negative; `Generation.SufficesIfCovering` has the negative block runlimits and `Generation.BlockOnlyBindsTransactions` the rest.
