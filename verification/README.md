# A verified model of neo-python's deterministic core

This project models the parts of neo-python whose behaviour is a closed algorithm or state machine, and
proves what they promise over all inputs, all runs or all reachable states:

- **The NeoVM.** `Instruction.dfy`, `ScriptBuilder.dfy`, `ExecutionContext.dfy`, `RandomAccessStack.dfy`,
  `VM.dfy` (one step of the engine as a function), `ApplicationEngine.dfy` (the engine as an object whose
  methods refine that function), `VMRuns.dfy` (stack isolation, gas, termination), `VMScripts.dfy` (what
  assembled scripts do when run), `VMArithmetic.dfy` (what assembled expressions compute), `VMInstructions.dfy`
  (stack instructions, jumps, calls, prices and limits written out), `CheckMultiSig.dfy`, `BigInteger.dfy`,
  `BinaryIO.dfy`, `StackItemSerializer.dfy`.
- **The multi-signature pipeline.** `MultiSig.dfy` (the redeem script), `SignatureContext.dfy` (collecting
  signatures), `SignerOrder.dfy` (their order), `MultiSigVerification.dfy` (what the finished witness runs to),
  `Witnesses.dfy` (the verification of witnesses).
- **The ledger.** `Persist.dfy` and `PersistBlock.dfy` (coins, balances, claims), `ChainHistory.dfy` (what any
  number of blocks adds up to), `Bonus.dfy` (the GAS that NEO earns), `HeaderIndex.dfy` (the header list, its
  batches, recovery).
- **The wallet and the synchroniser.** `WalletIndex.dfy`, `CoinSelection.dfy`, `Payments.dfy`, `Wallet.dfy`,
  `WalletLedger.dfy` (wallet and ledger agree), `Sync.dfy`.
- **Cryptographic arithmetic.** `NumberTheory.dfy`, `Lucas.dfy`, `ECCurve.dfy`, `MerkleTree.dfy`; `Bytes.dfy`,
  `Bits.dfy`, `Arithmetic.dfy` and `Wrappers.dfy` are shared helpers.

Code that updates objects is modelled by classes with the same fields; each of their methods is proved
against a function or a relation on values, and the theorems are about those. Signature verification, the
pair hash of the Merkle tree, contract lookup, system calls and their prices, the clock, and the answers of
the node manager are parameters. In `VM.dfy` the record `Env` holds the engine's parameters; in
`PersistBlock.dfy` the ghost fields `history` and `books` hold the chain so far and what it adds up to.

Some properties turned out to hold only under a condition, which is then proved to be the exact one:

- `CheckBigInteger` accepts every integer of 32 bytes except -2^248, because `ToByteArray` spends one byte
  too many on the negative powers of 256 (`BigInteger.CheckBigIntegerIff`). NEGATE, ABS and the result of SHR
  are not checked (`VMRuns.NegateLeavesRangeIff`, `AbsLeavesRangeIff`, `ShiftRightLeavesRangeIff`).
- A script reads back as assembled exactly when none of its pushes is 2 GiB or longer: the decoder takes the
  length for signed, and from 4 GiB on nothing is written (`ScriptBuilder.DecoderReadsBackIff`).
- Isolated calls are isolated unless a CALL_EDT inside has no item more than it has arguments: then the stack
  counter of the new frame is wrong, which its caller inherits (`RandomAccessStack.CallDynamicTail`,
  `MiscountedReturn`, `IsolationLost`). Such a CALL_EDT is excluded in `VMRuns.InsideCall` and ends a run in a
  status of its own.
- A finished multi-signature witness is accepted exactly if no two of its signers share an x coordinate. Keys
  are compared by x alone and both sorts are stable, so a key and its opposite stay in the listed order among
  the signatures, while the loop meets them in reverse (`MultiSigVerification.MultiSigVerifiesIff`, `EqualXFails`).
- A stack item map takes different keys for one when their hashes agree; for two-byte keys that is when 31 times the
  first plus the second byte do (`StackItemSerializer.KeysCollideIff`).
- The Lucas ladder is right for all P and Q exactly for odd moduli, for k a power of 2, for even k when 4 divides
  the modulus, and for k = 0 unless the modulus is 2; for any other even modulus it is right modulo half of it
  (`Lucas.ExactIff`, `LucasSequence`).
- A run can end in HALT although its gas is exhausted: the last frame's RET is executed after its failed
  charge and HALT overwrites FAULT (`VMRuns.HaltOverspendsIff`).
- Point compression round-trips exactly for field primes that are 3 modulo 4 and take 32 bytes
  (`ECCurve.CompressionRoundTrip`).
- The bonus of an output is its per-block sum unless it was spent in the block that created it and that
  block is a decrement of the schedule (`Bonus.PerBlockIff`); the table lookup fails exactly for intervals
  that begin inside the schedule and end one interval or more past it (`Bonus.Generated`).
- Before a block is committed, balances are sums of unspent outputs exactly while nothing of value is spent
  twice (`Persist.BalancesAreUnspentIff`). The commit drops accounts without a positive balance, debts
  included, so after it they are exactly if nobody who still owns something unspent has overspent
  (`PersistBlock.CommitAgreesIff`).
- A restart drops the headers above the stored batches exactly when the last one stands just above them or
  one of them is missing from the store (`HeaderIndex.Blockchain.Recover`).
- A transaction is built exactly when every asset it owes can be paid for or has its coins named by the caller,
  and it balances exactly when the named coins, if any, cover what their asset owes
  (`Wallets.Wallet.MakeTransaction`).
- `ProcessBlocks` stops short of the block at the chain's height, so a wallet that has caught up knows every
  block but the newest (`Wallets.Wallet.ProcessBlocks`).
- A block is persisted above the header height exactly when its header is refused
  (`Sync.Ledger.StartAddBlock`); the program never verifies headers, so it never is.

Where intention and code disagree the model follows the code: `AddSignature` means to refuse a second
signature of the same key but compares bytes with text, so it never does; `MakeTransaction` means to skip
issue transactions but compares bytes with an integer, so it never does; `VerifyWitnesses` asks for the one item
that a run leaves and not whether it ended in HALT.

## Model

| member | source | states |
|---|---|---|
| BigInteger.RoundTrip | neo/Core/BigInteger.py:13-43 | decoding the bytes of any integer as signed gives the integer back |
| BigInteger.EncodingIsNearlyShortest | neo/Core/BigInteger.py:20-43 | the encoding is at most one byte over the shortest form, and exactly on the negative powers of 256 it is |
| BigInteger.ToByteArray | neo/Core/BigInteger.py:20-43 | the scan for the sign byte computes that encoding for every integer |
| BigInteger.CheckBigIntegerIff | neo/VM/ExecutionEngine.py:68-69 | accepted are exactly the integers from -2^255 below 2^255 except -2^248 |
| VMRuns.ArithmeticStaysInRange | neo/VM/ExecutionEngine.py:523-649 | INC, DEC, ADD, SUB, MUL and SHL push only accepted integers, so results stay within 32 bytes; which ones is `VMArithmetic.ExpressionRuns` |
| VMRuns.NegateLeavesRangeIff | neo/VM/ExecutionEngine.py:545-549 | NEGATE, which checks nothing, leaves the range on exactly one integer |
| VMRuns.AbsLeavesRangeIff | neo/VM/ExecutionEngine.py:551-555 | so does ABS, on the same one |
| VMRuns.ShiftRightLeavesRangeIff | neo/VM/ExecutionEngine.py:651-663 | SHR leaves the range exactly by negative counts on operands too long for them |
| VMArithmetic.ExpressionRuns | neo/VM/ExecutionEngine.py:523-720 | an assembled expression of numbers, arithmetic, shifts, comparisons and logic, run as a script, halts exactly if every operation's operands and result are accepted; its value, the deeper operand being the left, is then the only result, and the gas one unit for each operator |
| VMArithmetic.Computes | neo/VM/ExecutionEngine.py:523-720 | the same in the middle of any script and stack: the code runs to the item of the value, all else unchanged, or to a fault |
| VMArithmetic.BytesOfNumber | neo/VM/InteropService.py:47-60 | exactly the items that are numbers are bytes, the bytes of their number; the others are true |
| VMInstructions.StackInstructionRuns | neo/VM/ExecutionEngine.py:332-425 | a stack instruction with enough items leaves each item where its position is written out, counts the change and touches nothing else; with too few it faults |
| VMInstructions.JumpLands | neo/VM/ExecutionEngine.py:234-252 | when JMP, JMPIF and JMPIFNOT are taken, where they land, and when they fault |
| VMInstructions.CallEnters | neo/VM/ExecutionEngine.py:254-263 | CALL hands the whole stack to a frame at its offset; when it faults |
| VMInstructions.IsolatedCallEnters | neo/VM/ExecutionEngine.py:1143-1161 | CALL_I hands over the named items, owing the named number, at an offset from behind its counts |
| VMInstructions.AppCallEnters | neo/VM/ExecutionEngine.py:291-320 | APPCALL and TAILCALL: which contract is called, written or on the stack, what it gets, and what is left of the caller |
| VMInstructions.ExternalCallEnters | neo/VM/ExecutionEngine.py:1163-1196 | CALL_E, CALL_ED, CALL_ET and CALL_EDT: the same with counts, and exactly when CALL_EDT miscounts |
| VMInstructions.ReturnHandsBack | neo/VM/ExecutionEngine.py:265-289 | RET gives the owed items, or all, to the caller or the results |
| VMInstructions.ThrowIfNotRuns | neo/VM/ExecutionEngine.py:1201-1204 | THROWIFNOT goes on without its item exactly if that is true |
| VMInstructions.GasIsBill | neo/SmartContract/ApplicationEngine.py:104-136 | the gas of any run is the sum, over the instructions met, of a price list written out |
| VMInstructions.GateInFigures | neo/SmartContract/ApplicationEngine.py:88-102 | an instruction is allowed exactly with gas for it, or within 500000 operations in test mode, and with permission for a dynamic call; others stop the engine |
| VMInstructions.CountInFigures | neo/VM/ExecutionEngine.py:74-97 | up to 2048 items a count is accepted; above, a strict one is refused and any other replaced by the real one |
| VMInstructions.LimitsInFigures | neo/VM/ExecutionEngine.py:207-230 | pushes fail exactly above 1 MiB, system calls of more than 252 bytes always |
| VMInstructions.PackInFigures | neo/VM/ExecutionEngine.py:883-896 | PACK makes an array of the counted items, the topmost first, of at most 1024 |
| VMInstructions.OperandsInFigures | neo/VM/ExecutionEngine.py:800-845 | the lists of CHECKMULTISIG come from an array or a count on the stack, must be bytes and not empty |
| VMInstructions.CheckMultiSigInFigures | neo/VM/ExecutionEngine.py:800-881 | it fails exactly on other lists or more signatures than keys; its verdict implies a matching, and is it when no check raises |
| BinaryIO.VarIntRoundTrip | neo/Core/IO/BinaryReader.py:224-255 | a written variable-length integer reads back, ending where it ends, whatever follows |
| BinaryIO.VarBytesRoundTrip | neo/Core/IO/BinaryReader.py:257-272 | the same for a byte string with its length |
| BinaryIO.VarIntInFigures | neo/Core/IO/BinaryWriter.py:307-342 | the bytes of the format, range by range |
| BinaryIO.ReadVarIntInFigures | neo/Core/IO/BinaryReader.py:224-255 | what the reader makes of any bytes, also of forms longer than needed |
| BinaryIO.BinaryWriter.WriteVarInt | neo/Core/IO/BinaryWriter.py:307-342 | appends that format and fails exactly outside 0..2^64-1 |
| BinaryIO.BinaryWriter.WriteVarBytes | neo/Core/IO/BinaryWriter.py:344-359 | appends length and bytes |
| BinaryIO.BinaryReader.ReadVarInt | neo/Core/IO/BinaryReader.py:224-255 | reads that format, 0 at the end of the stream, an exception on short or oversized input |
| BinaryIO.BinaryReader.ReadVarBytes | neo/Core/IO/BinaryReader.py:257-272 | reads exactly the announced bytes or raises |
| StackItemSerializer.RoundTrip | neo/VM/InteropService.py:94-128 | deserializing any well-formed tree's bytes, anywhere in a stream, rebuilds the tree and consumes exactly them |
| StackItemSerializer.SerializedIsPrefixFree | neo/VM/InteropService.py:580-585 | no tree's bytes begin another's, so a stream determines its tree |
| StackItemSerializer.SetItemKeepsKeysDistinct | neo/VM/InteropService.py:521-522 | assigning to a map never creates two keys that its hashes take for one |
| StackItemSerializer.KeysCollideIff | neo/VM/InteropService.py:81-92 | different two-byte keys are one key for a map exactly if 31 times the first plus the second byte agree |
| StackItemSerializer.TypeBytes | neo/SmartContract/StackItemType.py:2-8 | the first byte of every kind of item |
| StackItemSerializer.Serialize | neo/VM/InteropService.py:236-240 | the recursive writer appends exactly the tree's bytes |
| StackItemSerializer.DeserializeStackItem | neo/VM/InteropService.py:94-128 | the reader's loops compute the tree, the new position, or the exception |
| Instructions.DecodeStaysInside | neo/VM/Instruction.py:54-72 | a decoded instruction never reaches past the end of the script |
| Instructions.LengthInFigures | neo/VM/Instruction.py:74-84 | how long instructions are, group by group |
| Instructions.DecodedInFigures | neo/VM/Instruction.py:53-72 | what the decoder finds in any bytes: an operand as long as they announce, none, or a ValueError |
| Instructions.DecodeAssembled | neo/VM/Instruction.py:54-84 | the decoder reads back any well-formed instruction from its bytes |
| Instructions.WalkAssembled | neo/VM/Instruction.py:54-84 | walking an assembled script gives its instruction list and ends at its length |
| ExecutionContexts.ExecutionContext.GetInstruction | neo/VM/ExecutionContext.py:46-55 | the cache never differs from a fresh decoding; past the end there is an implicit RET |
| ExecutionContexts.ExecutionContext.CurrentInstruction | neo/VM/ExecutionContext.py:32-37 | the remembered instruction is the one at the pointer |
| ExecutionContexts.ExecutionContext.JumpTo | neo/VM/ExecutionEngine.py:246-252 | a jump moves the pointer and keeps the cursor coherent unless the target is malformed |
| ExecutionContexts.ExecutionContext.MoveNext | neo/VM/ExecutionContext.py:57-60 | the move by one instruction, its failure after the pointer has moved, and the bound at the script's end |
| ScriptBuilder.DecoderReadsBack | neo/VM/ScriptBuilder.py:91-134 | decoding what any sequence of pushes, opcodes, app calls and system calls emits gives exactly those instructions |
| ScriptBuilder.DecoderReadsBackIff | neo/VM/Instruction.py:54-84 | a script reads back as meant if and only if none of its pushes is 2 GiB or longer |
| ScriptBuilder.LongPushIsLost | neo/VM/Instruction.py:66-70 | data from 2 GiB to below 4 GiB reads back as an empty push, with the data as instructions behind it |
| ScriptBuilder.ScriptBuilder.Push | neo/VM/ScriptBuilder.py:91-134 | appends the shortest push form of a number or of data |
| ScriptBuilder.ScriptBuilder.Emit | neo/VM/ScriptBuilder.py:153-156 | appends the opcode and its operand |
| ScriptBuilder.ScriptBuilder.EmitAppCall | neo/VM/ScriptBuilder.py:167-172 | appends the call, or raises on a hash that is not 20 bytes |
| ScriptBuilder.ScriptBuilder.EmitSysCall | neo/VM/ScriptBuilder.py:206-214 | appends the call, or raises on a name of 256 bytes and more |
| ScriptBuilder.ScriptBuilder.EmitAppCallWithOperationAndArgs | neo/VM/ScriptBuilder.py:179-186 | reverses the arguments in place and appends the call's script; raises exactly on more than 16 |
| VMScripts.AppCallIsReached | neo/VM/ExecutionEngine.py:207-230 | that script runs to its APPCALL with the operation on top of an array of the arguments in their order |
| RandomAccessStack.Stack.CopyTo | neo/VM/RandomAccessStack.py:20-30 | appends the top items; the counter stays right exactly when that many exist |
| RandomAccessStack.CallDynamicTail | neo/VM/ExecutionEngine.py:1163-1196 | the stacks of CALL_EDT: the new frame gets the arguments and a right counter exactly if there is an item more than arguments, and else one item at most |
| RandomAccessStack.MiscountedReturn | neo/VM/ExecutionEngine.py:265-289 | otherwise a return can raise the caller's counter without an item |
| RandomAccessStack.IsolationLost | neo/VM/ExecutionEngine.py:1143-1196 | CALL_I, such a CALL_EDT and a return leave any caller with an item less than its counter says |
| RandomAccessStack.Stack.InsertAt | neo/VM/RandomAccessStack.py:35-43 | insertion at a depth refines the sequence operation, errors included |
| RandomAccessStack.Stack.RemoveAt | neo/VM/RandomAccessStack.py:71-84 | removal at a depth, negative depths counted from the bottom, errors included |
| RandomAccessStack.Stack.SetAt | neo/VM/RandomAccessStack.py:86-100 | replacement at a depth refines the sequence operation |
| RandomAccessStack.Stack.Pick | neo/VM/ExecutionEngine.py:398-404 | pushes a copy of the item at a depth |
| RandomAccessStack.Stack.RollUp | neo/VM/ExecutionEngine.py:406-420 | brings the item at a depth to the top and loses none |
| RandomAccessStack.RollPermutes | neo/VM/ExecutionEngine.py:406-414 | removing at a depth and pushing permutes the stack |
| RandomAccessStack.InsertThenRemove | neo/VM/RandomAccessStack.py:35-84 | removing what was inserted restores the stack |
| VMRuns.ExecuteShape | neo/VM/ExecutionEngine.py:199-1209 | every instruction keeps its frame and all below, or returns to its caller, or stops the engine |
| VMRuns.RunsStaySound | neo/SmartContract/ApplicationEngine.py:88-102 | in every running state of every run pointers are within their scripts and gas within its amount |
| VMRuns.CallIsIsolated | neo/VM/ExecutionEngine.py:1143-1196 | CALL_I and CALL_E change the caller's stack by exactly pcount items less and rvcount more, whatever ran between but a TAILCALL out of the frame or a CALL_EDT that miscounts |
| VMRuns.StepProgress | neo/SmartContract/ApplicationEngine.py:88-136 | each step lowers the gas left, or the invocation depth, or the script bytes left |
| VMRuns.RunToEnd | neo/VM/ExecutionEngine.py:183-197 | execution under gas terminates from every sound state |
| VMRuns.RunToEndOf | neo/VM/ExecutionEngine.py:183-197 | whatever a run reaches ends where the run ends |
| VMRuns.HaltOverspendsIff | neo/VM/ExecutionEngine.py:1247-1280 | HALT with overspent gas arises exactly from an explicit RET of the last frame that cannot be paid |
| ApplicationEngine.ApplicationEngine.CheckStackSize | neo/VM/ExecutionEngine.py:74-97 | the running item count is updated as the step function says |
| ApplicationEngine.ApplicationEngine.Return | neo/VM/ExecutionEngine.py:265-289 | RET moves the owed items to the caller or to the results |
| ApplicationEngine.ApplicationEngine.CallIsolated | neo/VM/ExecutionEngine.py:1143-1161 | CALL_I refines the step function |
| ApplicationEngine.ApplicationEngine.CallExternal | neo/VM/ExecutionEngine.py:1163-1196 | CALL_E, CALL_ED, CALL_ET and CALL_EDT refine the step function, up to the point where CALL_EDT miscounts |
| ApplicationEngine.ApplicationEngine.PreExecuteInstruction | neo/SmartContract/ApplicationEngine.py:88-102 | the charge and its three reasons to refuse |
| ApplicationEngine.ApplicationEngine.ExecuteNext | neo/VM/ExecutionEngine.py:1247-1280 | one step, the instruction being executed even after a refused charge |
| ApplicationEngine.ApplicationEngine.Execute | neo/VM/ExecutionEngine.py:183-197 | the loop stops, in the state that the run ends in |
| CheckMultiSig.Run | neo/VM/ExecutionEngine.py:846-865 | the two-pointer loop with early exit succeeds if and only if signatures map increasingly to keys that verify them |
| CheckMultiSig.ScanIsSound | neo/VM/ExecutionEngine.py:846-865 | success gives such a map |
| CheckMultiSig.ScanIsComplete | neo/VM/ExecutionEngine.py:846-865 | such a map gives success when no check raises |
| MultiSig.CreateMultiSigRedeemScript | neo/SmartContract/Contract.py:84-109 | pushes m, the keys in ascending order and n; raises exactly on bad counts, more than 16 keys or an unencodable key |
| MultiSig.SortPermutes | neo/SmartContract/Contract.py:97-100 | sorting keeps the keys |
| MultiSig.SortIncreases | neo/SmartContract/Contract.py:97-100 | sorting keys of distinct x makes x strictly increase |
| MultiSig.DescendingReverses | neo/SmartContract/ContractParameterContext.py:172-176 | re-sorting ascending keys of distinct x in descending order reverses them |
| SignatureContext.ContractParametersContext.ReadKeys | neo/SmartContract/ContractParameterContext.py:152-165 | the scan of the redeem script finds its keys, or fails with a ValueError or another exception as the parser does |
| SignatureContext.ContractParametersContext.AddSignature | neo/SmartContract/ContractParameterContext.py:137-183 | records a signature, refuses it, also on a ValueError of the parser, or completes the parameters in descending key order |
| SignatureContext.ContractParametersContext.GetScripts | neo/SmartContract/ContractParameterContext.py:214-258 | the invocation script pushes the values in reverse order, and exists exactly when all are present |
| MultiSigVerification.RedeemScriptParses | neo/SmartContract/ContractParameterContext.py:152-165 | the redeem script's keys are read back in the order they were pushed |
| MultiSigVerification.AddAllFills | neo/SmartContract/ContractParameterContext.py:137-183 | signatures of m distinct listed keys, in any order, fill the parameters in descending key order |
| SignerOrder.CollectedMatch | neo/VM/ExecutionEngine.py:800-865 | signatures in the order of the keys map increasingly to them, whichever keys are left out |
| SignerOrder.OrderAgreesIff | neo/SmartContract/ContractParameterContext.py:172-176 | sorted the other way, the signers stand in the reversed order of the keys exactly if no two share an x |
| SignerOrder.CollectedScanIff | neo/VM/ExecutionEngine.py:846-865 | so the loop accepts the collected signatures exactly then |
| MultiSigVerification.MultiSigVerifiesIff | neo/SmartContract/ContractParameterContext.py:137-258 | signatures of any m distinct keys complete the context, and its witness runs to HALT with True if no two signers share an x and with False otherwise |
| MultiSigVerification.MultiSigVerifies | neo/SmartContract/ContractParameterContext.py:137-258 | for signers of distinct x the result is True even if signatures verify under other keys too |
| MultiSigVerification.EqualXFails | neo/VM/ExecutionEngine.py:846-865 | a two-of-two contract of any key and its opposite completes, and its witness runs to HALT with False |
| Witnesses.VerifyWitnesses | neo/SmartContract/Helper.py:15-75 | true exactly if hashes and scripts are as many, each script has its hash and each run leaves one true item |
| Witnesses.MultiSigHoldsIff | neo/SmartContract/Helper.py:15-75 | a finished multi-signature witness is accepted exactly if no two signers share an x |
| NumberTheory.GCDBezout | neo/Core/Cryptography/ECCurve.py:18-23 | the recursion returns a common divisor with its coefficients |
| NumberTheory.ModInvInverts | neo/Core/Cryptography/ECCurve.py:25-27 | modulo a prime the result is the inverse of any non-multiple that is not negative, and of the others up to the sign of Euclid's last divisor |
| NumberTheory.Fermat | neo/Core/Cryptography/ECCurve.py:164-175 | a to the power p is a modulo p, on which the square root rests |
| Lucas.Double | neo/Core/Cryptography/ECCurve.py:103-158 | the doubling formulas hold of the linear recurrence for all P, Q and k |
| Lucas.Increment | neo/Core/Cryptography/ECCurve.py:103-158 | so do the formulas for one step up |
| Lucas.ClimbModulo4 | neo/Core/Cryptography/ECCurve.py:140-158 | modulo a multiple of 4 every doubling makes good what the halvings of the step before have lost |
| Lucas.ClimbApproximates | neo/Core/Cryptography/ECCurve.py:140-158 | the ladder's values are the recurrence's modulo the whole of n or, where that fails, modulo half of it |
| Lucas.UnitLadder | neo/Core/Cryptography/ECCurve.py:103-118 | the branch for Q = 1 computes the general ladder without its power of Q |
| Lucas.SelfridgeLadder | neo/Core/Cryptography/ECCurve.py:119-139 | the branch for P = 1, Q = -1 does so with a sign for the power of Q |
| Lucas.GeneralLadder | neo/Core/Cryptography/ECCurve.py:140-158 | the general branch climbs the ladder bit by bit |
| Lucas.LucasSequence | neo/Core/Cryptography/ECCurve.py:76-161 | the k-th pair of the recurrence modulo every odd n and every other n for which k allows it, and modulo half of n always; errors exactly on the checked arguments |
| Lucas.InexactIsWrong | neo/Core/Cryptography/ECCurve.py:76-161 | for all other n and k the pair of P = n + 1 and Q = 0 is wrong |
| Lucas.ExactIff | neo/Core/Cryptography/ECCurve.py:76-161 | so these are exactly the n and k for which the result is right whatever P and Q are |
| ECCurve.SqrtFindsRoot | neo/Core/Cryptography/ECCurve.py:164-175 | for a prime that is 3 modulo 4 the power is a root of every square |
| ECCurve.OnlyTwoRoots | neo/Core/Cryptography/ECCurve.py:164-175 | a square has at most two roots, negatives of each other |
| ECCurve.OnCurveIff | neo/Core/Cryptography/ECCurve.py:588-592 | on the curve are exactly infinity and the points with y^2 congruent to x^3 + ax + b |
| ECCurve.DecompressedSolves | neo/Core/Cryptography/ECCurve.py:693-718 | whatever x and parity are given, a point that is found solves that congruence |
| ECCurve.DecodedSolves | neo/Core/Cryptography/ECCurve.py:634-691 | so every compressed encoding that is accepted decodes to a point on the curve |
| ECCurve.EncodedInFigures | neo/Core/Cryptography/ECCurve.py:472-493 | the encoding byte by byte, infinity included |
| ECCurve.DecodedInFigures | neo/Core/Cryptography/ECCurve.py:634-691 | for 32-byte primes, which lengths and first bytes decode and which raise a ValueError |
| ECCurve.DecompressFindsPoint | neo/Core/Cryptography/ECCurve.py:693-718 | of a point that solves the curve's equation, x and the parity of y determine it, and it is found |
| ECCurve.CompressionRoundTrip | neo/Core/Cryptography/ECCurve.py:472-486 | the compressed form of a finite point that solves the equation decodes to it exactly for 32-byte primes that are 3 modulo 4 |
| ECCurve.UncompressedRoundTrip | neo/Core/Cryptography/ECCurve.py:634-691 | the uncompressed form decodes to the point for 32-byte primes |
| MerkleTree.RootBinds | neo/Core/Cryptography/MerkleTree.py:69-103 | with an injective pair hash equal roots of equally long lists mean equal lists |
| MerkleTree.RepeatedLastLeaf | neo/Core/Cryptography/MerkleTree.py:69-103 | repeating the last leaf of an odd list of three or more leaves the root unchanged |
| MerkleTree.TreeDepth | neo/Core/Cryptography/MerkleTree.py:54-66 | the depth bounds the number of leaves between powers of two |
| MerkleTree.HashArrayIsLeaves | neo/Core/Cryptography/MerkleTree.py:133-156 | the hashes at the leaves of the built tree are exactly the given ones |
| MerkleTree.BuiltRoot | neo/Core/Cryptography/MerkleTree.py:111-130 | the built tree's hash is the root by levels |
| MerkleTree.Build | neo/Core/Cryptography/MerkleTree.py:69-103 | the linked nodes represent the tree built level by level |
| MerkleTree.MerkleTree.constructor | neo/Core/Cryptography/MerkleTree.py:54-66 | builds the nodes and counts the depth along left children |
| MerkleTree.MerkleTree.ToHashArray | neo/Core/Cryptography/MerkleTree.py:147-156 | returns exactly the set of leaf hashes |
| MerkleTree.ComputeRoot | neo/Core/Cryptography/MerkleTree.py:111-130 | returns the root of a non-empty list |
| Bonus.Generated | neo/Core/Blockchain.py:494-516 | the interval loop equals the sum over blocks, errs on empty intervals at a decrement, and fails exactly past the table |
| Bonus.CalculateBonusInternal | neo/Core/Blockchain.py:487-532 | grouping by heights and dividing at the end gives the sum over coins of what their NEO earned |
| Bonus.CalculateBonusIgnoreClaimed | neo/Core/Blockchain.py:441-462 | a claim pays for exactly the named references that can be claimed, or raises on the others |
| Bonus.PerBlockIff | neo/Core/Blockchain.py:487-532 | a coin's bonus is its per-block sum exactly unless its interval is empty and on a decrement of the schedule |
| Bonus.EarnedAdds | neo/Core/Blockchain.py:487-532 | earnings over adjacent intervals add up |
| Bonus.FeesTelescope | neo/Core/Blockchain.py:518-521 | the difference of two accumulated fee amounts is the sum of the blocks' fees |
| Bonus.OrderDoesNotMatter | neo/Core/Blockchain.py:487-532 | neither order nor grouping of the coins changes a claim |
| Bonus.HoldOrPassOn | neo/Core/Blockchain.py:487-532 | splitting and passing an output on earns what holding it would have |
| Bonus.WholeSupply | neo/Core/Blockchain.py:228-260 | over the whole schedule the whole NEO supply generates exactly the registered GAS supply |
| Bonus.Schedule | neo/Core/Blockchain.py:70-72 | every block below 14,000,000 generates 8 less one for each 2,000,000 before it, then 1 up to 44,000,000, then nothing |
| Bonus.BonusInFigures | neo/Core/Blockchain.py:487-532 | what a coin earns, by that schedule in closed form and the fees of its blocks |
| Bonus.EarlierGeneratesMore | neo/Core/Blockchain.py:494-516 | of two equally long intervals the earlier generates no less |
| Bonus.RegisteredAmounts | neo/Core/Blockchain.py:228-260 | 100,000,000 whole units of NEO and of GAS are registered |
| Persist.NetSumSpend | neo/Core/State/AccountState.py:211-225 | spending an output debits its owner by its value and nobody else |
| Persist.NetIsUnspent | neo/Core/Blockchain.py:989-1023 | without double spends, credits less debits are the outputs with a clear flag |
| Persist.BalancesAreUnspentIff | neo/Core/Blockchain.py:989-1023 | all balances are sums of clear outputs exactly when nothing of value was spent twice |
| Persist.ClaimableIsSpentUnclaimed | neo/Core/Blockchain.py:1016-1048 | on a chain that claims nothing unspent, what can be claimed is what was spent of the governing token and never claimed, with its height |
| ChainHistory.HistoryContinues | neo/Core/Blockchain.py:981-1048 | the books after a block's transactions are those of the history with the block added |
| ChainHistory.ClaimableIff | neo/Core/Blockchain.py:1016-1048 | whatever was claimed when, what can be claimed is what has a spend that no claim followed, at its height |
| PersistBlock.AccountState.AddToBalance | neo/Core/State/AccountState.py:195-209 | adds to the balance or creates it |
| PersistBlock.AccountState.SubtractFromBalance | neo/Core/State/AccountState.py:211-225 | subtracts from the balance or creates it negative |
| PersistBlock.SpentCoinState.HasIndex | neo/Core/State/SpentCoinState.py:95-107 | finds an item by index |
| PersistBlock.SpentCoinState.DeleteIndex | neo/Core/State/SpentCoinState.py:109-122 | removes the last item of that index and keeps the others in order |
| PersistBlock.FromTXOutputsConfirmed | neo/Core/State/UnspentCoinState.py:25-39 | one confirmed flag for each output |
| PersistBlock.Snapshot.AddOutputs | neo/Core/Blockchain.py:989-1001 | new outputs are clear and credited, and the stores still agree with the books |
| PersistBlock.Snapshot.SpendInput | neo/Core/Blockchain.py:1012-1023 | flag, debit and spent-coin item together keep the stores in agreement; raises exactly on missing entries |
| PersistBlock.Snapshot.SpendInputs | neo/Core/Blockchain.py:1003-1023 | grouping by previous transaction spends every input once |
| PersistBlock.Snapshot.RemoveClaims | neo/Core/Blockchain.py:1042-1048 | claims leave the spent coins and nothing else |
| PersistBlock.Snapshot.Commit | neo/Storage/Common/Snapshot.py:30-44 | deletes from its caches, which drops all empty accounts and spent-out entries and nothing else, and loses nothing unless something was spent twice |
| PersistBlock.UntouchedKept | neo/Storage/Common/DataCache.py:81-84 | deleting from the caches is filtering all, since entries outside them are those of stores that passed a commit |
| PersistBlock.KeptBalancesAgree | neo/Storage/Common/Snapshot.py:30-32 | no balance changes because no account is overdrawn |
| PersistBlock.CommitAgreesIff | neo/Storage/Common/Snapshot.py:30-33 | after the commit all balances are sums of clear outputs exactly if no owner of something unspent has overspent |
| PersistBlock.Blockchain.Persist | neo/Core/Blockchain.py:971-1092 | after a block without double spends each balance is the sum of its clear outputs and the spent coins are the claimable ones; with them, exactly when balances still are |
| PersistBlock.Blockchain.TryPersist | neo/Core/Blockchain.py:1097-1112 | only the next block is persisted, and a valid one is |
| PersistBlock.Blockchain.ValidTellsChain | neo/Core/Blockchain.py:971-1092 | after any number of blocks each balance is the sum of the account's outputs that no transaction spends, and the spent coins are the governing-token outputs with an unclaimed spend |
| PersistBlock.Blockchain.ImportBlocks | neo/bin/import_blocks.py:173-195 | of a file of blocks those before the first failure are persisted, all of them if their inputs exist, and the stores then tell that chain |
| HeaderIndex.AcceptedConsecutive | neo/Core/Blockchain.py:374-397 | the headers a call adds have consecutive indexes from the end of the list |
| HeaderIndex.RunIsAccepted | neo/Core/Blockchain.py:374-397 | an overlapping or continuing run of headers is taken exactly from the end of the list on |
| HeaderIndex.Blockchain.AddHeaders | neo/Core/Blockchain.py:374-405 | position h keeps holding the hash of a header with index h; fewer than 2000 headers are unbatched |
| HeaderIndex.Blockchain.OnAddHeader | neo/Core/Blockchain.py:407-425 | the batches stay the beginning of the list, in multiples of 2000 |
| HeaderIndex.LoadLists | neo/Core/Blockchain.py:139-161 | reading the batches back gives the beginning of the list |
| HeaderIndex.Walk | neo/Core/Blockchain.py:180-193 | following previous hashes gives the headers above the batches exactly when all are in the store |
| HeaderIndex.Blockchain.Recover | neo/Core/Blockchain.py:118-193 | a restart rebuilds the same list, or exactly its batched part |
| HeaderIndex.RunsLeave | neo/Core/Blockchain.py:407-425 | a run that stored a batch leaves batches, indexes and current header that agree with its list, which with linked headers of different hashes makes its store fit for recovery |
| WalletIndex.ReceiveHolds | neo/Wallets/Wallet.py:671-697 | an output to the wallet enters the dictionary and disturbs nothing |
| WalletIndex.PayHolds | neo/Wallets/Wallet.py:699-712 | an input flags a governing-token coin and removes any other |
| WalletIndex.ClaimHolds | neo/Wallets/Wallet.py:714-719 | a claim removes its coin |
| WalletIndex.IndexAgreesWithChain | neo/Wallets/Wallet.py:658-722 | on a proper chain the dictionary is the wallet's unspent outputs plus its spent unclaimed NEO outputs, flagged as such |
| WalletIndex.BalanceIsUnspent | neo/Wallets/Wallet.py:571-596 | the coins counted are worth the chain's unspent outputs to those addresses |
| Wallets.Wallet.ProcessNewBlock | neo/Wallets/Wallet.py:658-722 | outputs, inputs and claims of a block keep the dictionary a function of the chain's events |
| Wallets.NextBlock | neo/Wallets/Wallet.py:658-722 | the events of a proper next block are those that its history gains |
| Wallets.Wallet.ProcessBlocks | neo/Wallets/Wallet.py:626-656 | after catching up the dictionary and the balances are those of blocks 0 up to the wallet's height, which stops at the limit, at a missing block or below the chain's height |
| Wallets.Wallet.FollowingTells | neo/Wallets/Wallet.py:571-722 | a wallet that has followed a history holds exactly its outputs without a spend and the governing-token ones with an unclaimed spend, and counts the former |
| Wallets.IndexedRemains | neo/Wallets/Wallet.py:658-722 | so on a proper chain its dictionary keeps a spent output exactly as long as the ledger lets it be claimed |
| WalletLedger.WalletMatchesLedger | neo/Wallets/Wallet.py:571-596 | a wallet and a ledger that followed the same chain agree: the wallet's balance is the sum of the ledger's balances of its addresses |
| Wallets.Wallet.GetBalance | neo/Wallets/Wallet.py:571-596 | returns the chain's sum of unspent outputs, own or watched |
| Wallets.Wallet.FindUnspentCoins | neo/Wallets/Wallet.py:355-397 | returns exactly the eligible coins, once each, or raises on an unknown contract |
| Wallets.Wallet.EligibleIff | neo/Wallets/Wallet.py:355-397 | in a wallet that follows a proper history, eligible coins are exactly the outputs to its own, or on request watched, addresses that no transaction spends and that meet the restrictions |
| Wallets.Wallet.SelectableIsBalance | neo/Wallets/Wallet.py:571-596 | without restrictions the coins to choose from are worth the balance |
| Wallets.Wallet.SufficesIsBalance | neo/Wallets/Wallet.py:430-439 | so selection falls short exactly when the balance does |
| CoinSelection.SelectCoins | neo/Wallets/Wallet.py:430-460 | None exactly when funds fall short; else one exact coin or the shortest prefix by value |
| CoinSelection.SortSorts | neo/Wallets/Wallet.py:441-444 | sorting by value keeps the coins and orders them |
| Wallets.Wallet.FindUnspentCoinsByAssetAndTotal | neo/Wallets/Wallet.py:416-460 | the same over the wallet's eligible coins of the asset |
| Wallets.Wallet.FindCoinsByVins | neo/Wallets/Wallet.py:335-353 | returns the named coins, each once if each is named once |
| Wallets.PayTotals | neo/Wallets/Wallet.py:1020-1037 | totals by asset are the outputs' sums, plus a positive fee in the utility token |
| Payments.CoversIff | neo/Wallets/Wallet.py:1066-1083 | coins and their change pay exactly what is due, in all assets, if and only if they cover it |
| Payments.ConservedIff | neo/Wallets/Wallet.py:1066-1092 | a whole transaction conserves value exactly when its one unchecked choice covers what is due |
| Wallets.Wallet.MakeTransaction | neo/Wallets/Wallet.py:981-1094 | every input is an unspent output of the chain to the wallet's addresses within the restrictions, or named by the caller; inputs equal outputs but for the fee exactly if the named coins cover what they owe; made if and only if every asset owed can be paid for or has named coins |
| Sync.RequestInfo.AddNewFlight | neo/Network/requestinfo.py:12-14 | the new flight becomes the latest one |
| Sync.Ledger.StartAddBlock | neo/Network/ledger.py:65-78 | only the next block goes on, and stays within the header height exactly if its header is known or accepted |
| Sync.Ledger.EndAddBlock | neo/Core/Blockchain.py:1088-1090 | success raises the height by exactly one |
| Sync.SyncManager.SyncHeader | neo/Network/syncmanager.py:110-132 | one header request at a time, within the look-ahead |
| Sync.SyncManager.OnHeadersReceived | neo/Network/syncmanager.py:352-374 | headers are kept exactly if they were asked for and are new |
| Sync.SyncManager.SyncBlock | neo/Network/syncmanager.py:155-208 | with nothing outstanding, exactly the hashes of all missing heights above the best one, ascending, up to 500 and to what node, header list and cache space allow, are asked for, each as a request with a flight of that node |
| Sync.NextIsWanted | neo/Network/syncmanager.py:188-203 | the next block is the first asked for whenever node and header list have it, it is not cached and there is room |
| Sync.SyncManager.AddBlockFlightInfo | neo/Network/syncmanager.py:435-444 | every outstanding request keeps its latest flight |
| Sync.SyncManager.PersistNext | neo/Network/syncmanager.py:210-221 | both caches lose the same block |
| Sync.SyncManager.OnBlockReceived | neo/Network/syncmanager.py:376-414 | when exactly a block is cached; the caches stay aligned and their heights distinct |
| Sync.SyncManager.CheckBlockTimeout | neo/Network/syncmanager.py:274-327 | every late request is dropped or handed on, and no flight is missing |
| Sync.SyncManager.RetryBlocks | neo/Network/syncmanager.py:329-350 | new flights keep all requests ready even if answered meanwhile |
| Sync.SyncManager.Run | neo/Network/syncmanager.py:97-132 | all of this holds after any interleaving, and the height is the number of successes above the start |

## Left out

- Opcodes other than those of the call family, jumps, pushes, stack manipulation, arithmetic, PACK and CHECKMULTISIG go through the parameter `Env.other`, which may do anything inside the current frame; DIV, MOD and NZ are among them.
- Stack items inside the engine are values and references to a heap of arrays; frames are values, so aliasing of the in-place UNPACK reversal and of shared buffers is not captured.
- The recount of stack items is a parameter (`Env.recount`); the running count is modelled but it is an estimate and no theorem bounds it.
- After an exception inside an instruction only FAULT is promised, not the partly changed stacks; engines with `exit_on_error` off are not modelled.
- VMRuns.CallIsIsolated: is stated for CALL_I and CALL_E and for runs in which no CALL_EDT miscounts; what an engine does after a wrong stack counter is not described, its run ends in the status Miscounted.
- System calls and the computed price of asset renewal are parameters; termination assumes every system call price is at least 1.
- Plain integers above 16, `EmitPushBigInteger`, and the guessing of hexadecimal text in `push`, `WriteBytes` and the header lists are not modelled: data are raw bytes.
- Stack item maps: identity hashes are taken to differ from content hashes; the recursion limit of the host language is not modelled.
- `sqrtCQ` for primes that are 1 modulo 4, scalar multiplication and division, and signatures themselves are not modelled.
- Merkle `Trim` and the parent links are not part of the tree theorems.
- Fees and bonuses are exact integers of whole GAS and whole NEO, not floating-point numbers.
- Output values are taken to be non-negative; the program itself checks this nowhere.
- The database and its caches are maps; registrations, asset availability, enrolments, votes and contract storage are other stores of `Persist` and are not modelled, nor are frozen or voting accounts, which nothing in the program creates.
- PersistBlock.Blockchain.Persist: takes a chain without double spends so far; after the first block that has one it says when balances agree and nothing more, because the accounts dropped at commit forget debts and the claim lists hold duplicates.
- PersistBlock.Blockchain.ImportBlocks: takes blocks numbered in sequence, without double spends and with a hash for each transaction; the headers that an import adds are a matter of `HeaderIndex.dfy`.
- `AddBlockDirectly`, the rebuilding of the header list from stored blocks when no batch was written, and schema changes are not modelled.
- HeaderIndex.Blockchain.Recover: assumes that hashes do not collide and that headers above the batches are linked, without which the walk need not end.
- MultiSigVerification.MultiSigVerifiesIff: takes pairwise different keys, and signatures that verify under no listed key but their own.
- MultiSigVerification.MultiSigVerifies: takes signature verification and key parsing not to raise for the listed keys.
- The hashes that a witness must have, and the notifications of `VerifyWitnesses`, are parameters or left out.
- The choice of the change address and its exception, saving and signing of transactions, and pending sends are not modelled; `MakeTransaction` receives the address.
- The wallet's set of changed coins and its height in the database are not modelled.
- Converting network headers and blocks to ledger objects is reduced to whether the raw bytes parse.
- Node selection, speed and timeout bookkeeping of the node manager, shutdown and `reset` of the synchroniser are parameters or left out; ledger queries never suspend in the program and are atomic here.
- Networking, asynchronous plumbing, storage engines, prompts, servers, logging and settings have no property stated here.
