# A verified model of an EVM fork debugger

This project models four parts of a Go program that runs Ethereum transactions against forked chain state and lets a
user debug them, and proves what those parts promise.

**The execution engine.** `Machine.dfy`, `Execution.dfy` and `Run.dfy` give the interpreter as functions: one step of a
frame, what a message does on entry and exit, and the two mutually recursive runs (`RunFrame`, `ExecuteMessage`) whose
termination rests on depth and then gas. Frames share accounts, storage, transient storage and the access list; gas,
stack, memory and pc are their own. `AccountState.dfy`, `EngineObjects.dfy`, `Evm.dfy` and `Engine.dfy` are the same
engine as objects updated in place - balance cells shared by reference, snapshot maps installed without copying, one
object per frame over one set of shared objects - and every method is proved to compute what the functions say.
On the functions rest the theorems about whole nested runs: atomic rollback (`Rollback`), gas and termination (`Gas`,
`Run`, `TopLevel`), conservation of balances (`Conservation`, `Sums`), purity of static calls (`StaticPurity`), pc
soundness (`Bytecode`, `PcSoundness`), code that no run takes away (`CodeKept`), cold access billed once (`ColdAccess`),
net SSTORE metering (`StorageTelescope`, `StorageRun`) and memory pricing in wrapping uint64 arithmetic
(`MemoryPricing`, `MemoryMeter`). A second reading of the same functions says what they mean to whoever calls them, in
terms of stacks, bytes, slots and balances and of no function of the model that computes them: a call from its opcode to
the word it hands back (`CallLaws`), a create (`CreateLaws`), what becomes of a message (`MessageLaws`), a transaction
and the fee it burns (`TopLaws`), every other instruction (`Instructions`, `MemoryBytes`) and its price (`Prices`).

**The fork state.** `Eager.dfy` is the simple thing: a state in which every account and slot of the source block is
there from the start. `ForkAccounts.dfy`, `ForkSlots.dfy` and `ForkState.dfy` are the lazy wrappers, with their
journals, the shared cache, and reverts that un-load what was loaded; every operation and every run of operations chosen
from earlier answers is proved to behave as on the eager state. `WriteBack.dfy` and `Reconstruction.dfy` chain prior
transactions through the cache and prove the chain to be sequential composition on one eager state;
`EngineStrategy.dfy` ties the runs of the engine to the transactions of such a chain, and `ForkLaws.dfy` says what a fork
starts from, and carries over, in terms of the provider's answers and the cache's entries.

**The debugger session.** `Replay.dfy` compares two runs with different journals, `Jobs.dfy` the two kinds of run a
session repeats; `Debugger.dfy` proves that stepping and editing by running again from the start refines a debugger that
pauses and edits in place. `Variables.dfy` and `PauseDisplay.dfy` are what a pause displays and what a write does to it.
`CallFrames.dfy` and `FrameMirror.dfy` are the call-frame list; `Compaction.dfy`, `Patches.dfy`, `MemoryPatches.dfy` and
`StatePatches.dfy` the state patches.

**Round trips.** `Text.dfy`, `BlockRefs.dfy` and `CacheStore.dfy`: cache export and import through printed block keys.
`SourceText.dfy`: line and column against byte offset in UTF-8. `SourceMap.dfy`: source maps and the lookup by pc.

`dafny verify dfyconfig.toml` checks the whole project.

## How to read the model

- A frame-local handler answers `Cont` or `End`; `Flow` adds the shared world; `StepOut` adds a message to be sent.
  `World` carries, besides what frames share, fields that only observe: cold charges made, frames open, instructions
  fetched, hook firings and the pause taken. Theorems about billing, fetching, frames and pauses are about those fields.
- uint64 arithmetic wraps where the code's does (`Add64`, `Sub64`, `Mul64`); amounts of ether are unbounded integers, as
  in `math/big`.
- Upstream, keccak, address derivation, precompiles and every opcode that only computes a word are parameters:
  deterministic functions about which nothing is assumed.
- The host serves a single allocation of at most `maxAlloc` bytes, below 2^37; a larger one is the panic that ends a
  frame with `Halted`. Gas needs this: beyond 2^37 the wrapped square could make a call's price drop below what its
  child may hand back.
- The transactions of a reconstruction are strategies: functions from the answers received so far to the next state
  operation. The theorem holds for all whose runs take code from no account (`NoCodeLost`). What a run of the engine
  does is what such a strategy does (`EngineStrategy.JobIsStrategy`). What a top-level creation deploys is recorded
  separately and may be anything.

## Where the code and its promises part

- A failed transaction that moves no value keeps what its code wrote: failures leave no write exactly where value is
  moved to another account, the call is static, or the gas is too little to store (`NoWriteLeftIff`).
- Refund counters are per frame and floor at zero, so a callee undoing its caller's clear is refunded more than the
  metering rules say (`FloorAcrossFrames`); within one frame the floor is never reached.
- Accesses ending in the last 31 bytes of the address range are priced at nothing, because rounding up wraps to zero
  (`UnchargedIff`).
- Prior transactions are replayed on whatever the synthetic key already stands for. After a retry that follows an error,
  or an import of a cache, the key is in use and they are applied twice (`StartIsUpstreamIff`,
  `SecondReconstructionPaysTwice`).
- A session is done only where the run succeeds. Past the last step of a run that ends in an error every "next" fails,
  and the session is never done (`NextIsLive`, `RevertedRunIsNeverDone`).
- Storage variables on display go by slot text alone: a write to another contract, which is what a request without an
  address makes while a callee is paused, is shown as the paused contract's, and of variables packed into one slot only
  the first is updated (`VariablesRightIff`, `DefaultTargetMisleads`, `PackedVariableIsStale`).
- The session's memory copy after a growing write ends where the write ends, not at the end of a word
  (`DisplayExactIff`).
- Patch compaction is wrong for a slot written under several spellings unless the one that sorts last ends with the last
  value, and the write handler does not unify the case of hex digits (`CompactionKeepsIff`, `UpperCaseIsReordered`); for
  memory it is wrong when an empty write shadows data (`DisjointKeptIff`).
- Scope texts are compared as they stand but trimmed on import: a write journaled under " transient " comes back from a
  patch in the other storage (`CanonicalImportIff`, `PaddedScopeStrays`).
- Accounts fetched from upstream exist even when they are empty, because seeding a balance makes them exist
  (`EmptyAccountComesToExist`).

## Model

| member | source | states |
|---|---|---|
| `Rollback.MessageIsAtomic` | internal/engine/message.go:53-134 | a message that does not end in success leaves accounts and persistent storage exactly as on entry, whatever its descendants did, and the snapshot stacks of every enclosing frame with it |
| `Rollback.FrameKeepsSnapshots` | internal/engine/state_impl.go:41-90 | whatever a frame and its descendants do, the snapshots it started with stay on their stacks under the same ids |
| `Evm.EVM.ExecuteMessage` | internal/engine/message.go:53-134 | the message as run on the shared objects gives the outcome of `Run.ExecuteMessage`: depth, static and balance checks, snapshots, funding, precompile or code, rollback |
| `Evm.EVM.Begin` | internal/engine/message.go:69-87 | both journals snapshot before the callee is created and funded; the ids are the old stack heights |
| `Evm.EVM.Close` | internal/engine/message.go:116-133 | failure reverts both journals and takes the gas, except that REVERT keeps it |
| `Evm.EVM.InitCreate` | internal/engine/message.go:73-82 | a created account exists, and has nonce 1 if it had neither nonce nor code |
| `Evm.EVM.Fund` | internal/engine/message.go:73-87 | creation and value transfer change the accounts in that order |
| `Evm.EVM.RunChild` | internal/engine/message.go:106-114 | a child frame runs over the same shared objects and its outcome is that of the frame run on its own |
| `Evm.EVM.constructor` | internal/engine/message.go:136-196 | a new frame is empty, has its own gas meter, stack and memory, and a jump table that is exact for its code |
| `CallLaws.CallTurn` | internal/engine/message.go:199-347 | CALL, CALLCODE, DELEGATECALL and STATICCALL, in terms of the stack they find: when the frame goes on, the message named caller, callee, code, value, input and restriction as its kind says; the stack is the old one less the operands plus one word, 1 if and only if the message succeeded and 0 otherwise; the return data is the output, its first bytes are in memory at the place asked for, every other byte is as it was |
| `CallLaws.CallSends` | internal/engine/message.go:199-290 | the message a call sends, and its gas: what was asked for, at most all but a 64th of what is left, and 2300 more with value |
| `CallLaws.EnteredIdentity` | internal/engine/message.go:137-170 | CALL and STATICCALL run as the callee, called by the caller, with the message's value; CALLCODE as the caller, called by itself; DELEGATECALL with the caller's own address, caller and value |
| `CallLaws.EnteredFrame` | internal/engine/message.go:93-114 | an entered frame is empty and has the message's gas, input, restriction and depth, and the code of the account named |
| `CallLaws.CalledCodeStores` | internal/engine/message.go:137-170 | code that stores, reached by CALL, writes the slot of the account called and no other; reached by CALLCODE or DELEGATECALL, the slot of the calling account and no other |
| `CallLaws.AnswerLaw` | internal/engine/message.go:309-347 | the pick-up alone, for any outcome of the message |
| `CreateLaws.CreateTurn` | internal/engine/op_system.go:5-151 | CREATE and CREATE2: the frame goes on with zero on its stack and nothing else in the frame changed but gas, and then the value cannot be paid, the init code is too long or the address is taken; or after a message, and then the stack holds the new account's address if the returned code was deployed, and zero otherwise, and exactly that account's code has changed |
| `CreateLaws.CreateSends` | internal/engine/op_system.go:33-92 | the message of a create: creator, derived address, value, the init code's bytes, all but a 64th of the gas; only the creator's nonce has changed |
| `MessageLaws.Refusals` | internal/engine/message.go:53-68 | exactly the messages that are too deep, static with value, or not affordable are turned away, touching nothing; only the static one loses its gas |
| `MessageLaws.ValueMoves` | internal/engine/message.go:73-87 | what is entered has the value moved from caller to callee and no other balance changed |
| `MessageLaws.CreatedStarts` | internal/engine/message.go:73-87 | a created account starts existing, with nonce 1 unless it had a nonce or code, and with the value beside what it had if it existed; no other account has changed but for the value |
| `MessageLaws.RunsToTheEnd` | internal/engine/message.go:106-133 | an entered message ends as its frame does: status, output, logs and refund, and gas on success and revert only |
| `MessageLaws.PrecompileAnswers` | internal/engine/message.go:89-104 | a precompile that can be paid answers with its output and the rest of the gas |
| `Gas.StepSpends` | internal/engine/interpreter.go:110-190 | every instruction that goes on lowers the gas of its frame, and one that calls keeps, together with all it sent, less than it had |
| `Gas.OpCallGas` | internal/engine/message.go:228-270 | even with the 2300 stipend, and although memory gas is added with wrapping, a call keeps less than it had |
| `Gas.OpCreateGas` | internal/engine/op_system.go:55-92 | a create never hands out more gas than its frame had |
| `Gas.CallPaysItsPrice` | internal/engine/message.go:246-259 | if the growth a call asks for can be served, its wrapped price is at most one short of the access and value price |
| `Gas.ResumeGas` | internal/engine/message.go:309-347 | picking up after a sub-message never leaves more than was kept plus what came back |
| `Run.RunFrame` | internal/engine/interpreter.go:110-190 | every run of a frame ends (depth, then gas) with at most the gas it was given |
| `Run.ExecuteMessage` | internal/engine/message.go:53-134 | every message ends with at most the gas it was given |
| `Run.RunFrameByTurns` | internal/engine/interpreter.go:110-190 | a frame run is its first turn followed by a run with strictly less gas |
| `TopLevel.GasAccountedFor` | internal/engine/engine_impl.go:143-157 | GasUsed + GasRemaining = GasLimit |
| `Prices.StepCosts` | internal/engine/interpreter.go:110-170 | an instruction that touches only its own frame costs its static and dynamic gas and nothing else |
| `Prices.CopyPrice` | internal/engine/interpreter.go:465-568 | the copying instructions are charged 3, 3 a word, and the exact price of the growth; a range too far, more than there is |
| `Prices.KeccakPrice` | internal/engine/interpreter.go:407-424 | KECCAK256: 30, 6 a word, and the growth |
| `Prices.ExtcodecopyPrice` | internal/engine/interpreter.go:439-457 | EXTCODECOPY: 2600 or 100 for the account, 3 a word, and the growth |
| `Prices.LogPrice` | internal/engine/interpreter.go:569-590 | LOG: 375, 375 a topic, 8 a byte, and the growth |
| `Prices.ExpPrice` | internal/engine/interpreter.go:399-406 | EXP: 10, and 50 for each byte the exponent needs |
| `Prices.CreatePrice` | internal/engine/op_system.go:33-65 | CREATE: the growth and from Shanghai 2 a word of init code, CREATE2 6 a word more; the rest is kept or sent |
| `Conservation.MessageConserves` | internal/engine/message.go:62-97 | over a whole message tree, successful or not, the sum of all balances is unchanged and no balance becomes negative, given that accounts that do not exist hold nothing |
| `Conservation.FrameConserves` | internal/engine/op_system.go:193-221 | the same for a frame with all it calls, creates and destroys |
| `Conservation.InheritanceConserves` | internal/engine/op_system.go:211-217 | SELFDESTRUCT moves the balance and creates none |
| `Conservation.InitConserves` | internal/engine/state_impl.go:218-223 | creating an account resets a balance that was already zero |
| `TopLevel.OnlyBurnLeaves` | internal/engine/engine_impl.go:62-137 | a transaction changes the sum of balances by the base-fee burn and nothing else, on every outcome |
| `TopLevel.FailedTransferIsUndone` | internal/engine/engine_impl.go:110-137 | a failed transaction that moved value leaves storage as it was and only the burn in the accounts |
| `TopLevel.FailureWithoutValueKeepsWrites` | internal/engine/engine_impl.go:110-137 | a failed transaction that moves no value, whether it has none or pays itself, keeps what its code wrote: a four-instruction program that does |
| `TopLevel.CheapFailureKeepsWrites` | internal/engine/engine_impl.go:110-137 | the same program with PUSH0, which needs the least gas that can store |
| `TopLevel.NoWriteLeftIff` | internal/engine/engine_impl.go:92-137 | failed transactions of a configuration leave no write in storage, whatever their code and the state, if and only if the configuration moves value, is static, or has at most 2304 gas |
| `SmallGas.FrameStoresNothing` | internal/engine/op_storage.go:31-36 | a frame whose gas plus 2 a word on its stack is at most 2304 stores nothing, nor does anything it calls: it can never pass the 2300-gas sentry with two operands |
| `TopLaws.SupplyFalls` | internal/engine/engine_impl.go:62-85 | for an affordable run, with g = 21000 + 4 for each zero byte + 16 for each other byte + the gas used: if five times the refund is at most g, the sum of balances falls by (g - refund) times the base fee; otherwise by d times the base fee with 4g <= 5d < 4g + 5 |
| `TopLaws.CoinbasePays` | internal/engine/engine_impl.go:62-85 | that amount is what the coinbase has less than in the same transaction without a base fee; nothing else differs |
| `TopLaws.IntrinsicByCounts` | internal/engine/engine_impl.go:11-21 | the price of the data by counting its zero bytes |
| `TopLaws.RootRuns` | internal/engine/engine_impl.go:92-137 | an affordable transaction runs one frame; its result is the frame's, and on success so is its state but for the burn |
| `TopLaws.RootFrame` | internal/engine/engine_impl.go:92-108 | that frame is fresh, on the contract's storage, in the caller's name, with the value, input, code, gas and restriction of the configuration |
| `TopLaws.RootStarts` | internal/engine/engine_impl.go:110-126 | it finds the value moved from caller to contract, unless they are one, and every other balance, nonce, code and slot as it was |
| `TopLaws.UnpaidIsNotRun` | internal/engine/engine_impl.go:110-126 | a value the caller cannot pay: nothing runs, nothing changes, all gas is left |
| `TopLaws.WarmAtStart` | internal/engine/engine_impl.go:23-60 | exactly which addresses are warm at the start |
| `TopLevel.ComputeIntrinsicGas` | internal/engine/engine_impl.go:11-21 | the loop adds 21000, 4 per zero byte and 16 per other byte |
| `Engine.SimpleEngine.Run` | internal/engine/engine_impl.go:92-108 | the engine on the caller's objects gives the report and the state of `TopLevel.RunTransaction` |
| `Engine.SimpleEngine.WarmInitial` | internal/engine/engine_impl.go:23-60 | origin, caller, contract, coinbase (from Shanghai), precompiles and listed addresses are warm, nothing else is added |
| `Engine.SimpleEngine.MoveValue` | internal/engine/engine_impl.go:110-126 | value moves and snapshots are taken exactly when there is value and another account to take it |
| `Engine.SimpleEngine.RevertValue` | internal/engine/engine_impl.go:128-137 | both journals return to the snapshots exactly when there are some and the run failed |
| `Engine.SimpleEngine.BurnBaseFee` | internal/engine/engine_impl.go:62-85 | the coinbase loses charged gas, less at most a fifth in refunds, times the base fee |
| `Engine.SimpleEngine.RunRoot` | internal/engine/engine_impl.go:143-157 | the root frame runs as the frame function says |
| `StaticPurity.StaticCallIsPure` | internal/engine/message.go:215-217 | a STATICCALL leaves balances, nonces, code, both storages and the self-destruct set unchanged on every outcome |
| `StaticPurity.StaticFrameIsPure` | internal/engine/message.go:280-290 | so does every frame below it, through any mix of call kinds |
| `StaticPurity.StepFromStatic` | internal/engine/op_storage.go:18-24 | no instruction of a static frame changes shared state, and every message it sends is static and carries no value |
| `StorageTelescope.SstoreTelescopes` | internal/engine/op_storage.go:37-85 | any sequence of stores from current = original costs, net of refund, 100 per store, 2100 per slot first met, and per slot a term of its original and final value only |
| `StorageRun.RunTelescopes` | internal/engine/op_storage.go:37-85 | the telescoping read off the steps of a frame: over any instructions between two messages the gas of the stores, less the refund gained, is 100 a store, 2100 a cold store and a term per slot |
| `StorageRun.OtherStepEffect` | internal/engine/interpreter.go:112-170 | no other instruction touches persistent storage or the refund counter |
| `StorageTelescope.RefundNeverFloored` | internal/engine/gas.go:29-39 | within one frame the floor of DeductRefund is never reached |
| `StorageTelescope.RefundExactIff` | internal/engine/op_storage.go:61-85 | the refund counter moves by the exact signed amount if and only if the deduction for re-setting a cleared slot finds 4800 to take |
| `StorageTelescope.FloorAcrossFrames` | internal/engine/gas.go:29-39 | on the machine, with one refund counter per frame: a frame clears a slot, a library it calls with DELEGATECALL restores it, and the caller picks up 7600 of refund where the rules intend 2800 |
| `StorageTelescope.DelegateCallSends` | internal/engine/message.go:199-301 | what the opcode sends in that case, and what it leaves its frame |
| `StorageTelescope.OpSstoreIsStoreOne` | internal/engine/op_storage.go:18-88 | the opcode is one step of that metering |
| `Evm.EVM.StoreSlot` | internal/engine/op_storage.go:37-88 | warm, price, adjust the refund and write, in place, as the step function does; a store that cannot be paid still warms its slot |
| `Evm.EVM.StoreCost` | internal/engine/op_storage.go:40-57 | the branches add up to the net-metered price |
| `Evm.EVM.AdjustRefund` | internal/engine/op_storage.go:61-85 | three adjustments in order, the second floored at zero |
| `Evm.EVM.OpSstore` | internal/engine/op_storage.go:18-88 | operands, static check and the 2300-gas sentry before the store |
| `Evm.EVM.OpTstore` | internal/engine/op_storage.go:105-121 | a transient write, refused in static frames |
| `MemoryPricing.GasCostExact` | internal/engine/memory.go:84-94 | the wrapping price is 3w + w*w/512 for every length up to 2^37-32 |
| `MemoryPricing.GasCostFar` | internal/engine/memory.go:84-94 | beyond that, although w*w may wrap, the price stays above 3*2^32 |
| `MemoryPricing.Ceil32ExactIff` | internal/engine/memory.go:7-12 | rounding up is exact if and only if the size is at most 2^64-32, and gives 0 beyond |
| `MemoryPricing.ExpansionExact` | internal/engine/memory.go:96-102 | growth between two lengths in range costs the exact difference |
| `MemoryMeter.TotalIsExact` | internal/engine/interpreter.go:407-567 | over any sequence of priced memory instructions and calls, with the messages sent run to their end, the gas charged for growth is the exact difference of the two lengths' prices |
| `MemoryMeter.FreshFrameTotal` | internal/engine/memory.go:104-121 | from an empty memory it is 3w + w*w/512 of the final length |
| `MemoryMeter.StepPaysGrowth` | internal/engine/op_memory.go:5-83 | what an instruction is charged for is exactly what its handler grows |
| `MemoryMeter.CallPaysGrowth` | internal/engine/message.go:228-301 | a call, whatever its child does, is charged exactly for the larger of its two ranges, and picking up the answer grows nothing |
| `MemoryMeter.FarAccessRunsOut` | internal/engine/interpreter.go:407-567 | an access past 2^37-32 bytes runs out of gas |
| `MemoryMeter.UnchargedIff` | internal/engine/memory.go:104-121 | the accesses past 2^37-32 that are not too dear are exactly those ending in the last 31 bytes of the address range, which are free |
| `PcSoundness.FrameFetchesSound` | internal/engine/interpreter.go:112-130 | every pc fetched in a nested run, with any journaled edits, is an instruction of the code of its frame |
| `CodeKept.JobKeepsCode` | internal/forkengine/engine.go:330-339 | no replayed transaction, call or creation, takes code from an account that has some |
| `CodeKept.FrameKeepsCode` | internal/engine/op_system.go:55-121 | over a whole nested run: a create goes only to an address without code, so deploying never replaces any |
| `EngineStrategy.JobIsStrategy` | internal/forkengine/engine.go:330-339 | what a replayed call or creation does to accounts, storage and both journals is what some transaction of a reconstruction does, and such a transaction takes code from no account |
| `EngineStrategy.MessageReached` | internal/engine/message.go:53-134 | a message with all it runs, rolled back or not, is a list of state operations |
| `Bytecode.AnalyzeJumpdests` | internal/engine/interpreter.go:658-684 | the jump table marks exactly the 0x5B bytes that are instructions |
| `Bytecode.DecodeInstructionPCs` | internal/srcmap/source_map.go:66-77 | exactly the instruction offsets, each once, in order |
| `Bytecode.NoneBetween` | internal/engine/op_stack.go:15-28 | no instruction starts inside the operand of another |
| `Evm.EVM.JumpTo` | internal/engine/op_control.go:5-26 | a jump lands on a JUMPDEST instruction or ends the frame |
| `Evm.EVM.OpPush` | internal/engine/op_stack.go:15-28 | the operand is right-aligned, zero where the code ends, and pc moves past it |
| `ColdAccess.RunBillsOnce` | internal/engine/interpreter.go:727-751 | over all frames of a run no address or slot is billed cold twice, none that was warm is billed, and nothing cools down |
| `ColdAccess.MessageBillsOnce` | internal/engine/message.go:228-236 | the same across one message, rolled back or not |
| `TopLevel.TransactionBillsOnce` | internal/engine/engine_impl.go:23-36 | a transaction bills nothing twice and nothing on its initial access list |
| `ColdAccess.SstorePaysItsBill` | internal/engine/op_storage.go:41-47 | SSTORE pays 2100 more exactly when it bills its slot |
| `ColdAccess.SloadPaysItsBill` | internal/engine/interpreter.go:535-539 | SLOAD pays 2100 when it bills its slot and 100 otherwise |
| `ColdAccess.AddressReadPaysItsBill` | internal/engine/interpreter.go:425-437 | BALANCE, EXTCODESIZE and EXTCODEHASH pay 2600 when they bill and 100 otherwise |
| `ColdAccess.SelfdestructPaysItsBill` | internal/engine/op_system.go:198-210 | SELFDESTRUCT pays 2600 more exactly when it bills its heir |
| `ColdAccess.CallPaysItsBill` | internal/engine/message.go:228-245 | the CALL family prices its target by whether it bills it |
| `Evm.EVM.RunCode` | internal/engine/interpreter.go:83-191 | the loop over one mutable frame, with every message it sends, computes `Run.RunFrame` |
| `Evm.EVM.Turn` | internal/engine/interpreter.go:112-189 | fetch, fork check, gas, hook and handler in the order and with the outcomes of the step function |
| `Evm.EVM.Execute` | internal/engine/interpreter.go:193-394 | the dispatch reaches the handler the step function names |
| `Evm.EVM.DynamicCost` | internal/engine/interpreter.go:396-602 | opcodes that touch an address or slot warm it as they are priced; overflow is the largest price |
| `Evm.EVM.OpCall` | internal/engine/message.go:199-348 | a call, its child run and the pick-up afterwards, as one turn |
| `Evm.EVM.PrepareCall` | internal/engine/message.go:199-226 | operands, static check and input, up to the point where the call is priced |
| `Evm.EVM.SendCall` | internal/engine/message.go:228-290 | price, child gas, memory growth and the message that goes out |
| `Evm.EVM.ChargeCall` | internal/engine/message.go:256-278 | what is charged is the price plus the gas sent (all but a 64th at most), and the fault says which step failed |
| `Evm.EVM.FinishCall` | internal/engine/message.go:309-347 | gas, refund, return data, the copy into memory and the success word |
| `Evm.EVM.OpCreate` | internal/engine/op_system.go:5-151 | a create, its child run and the deployment, as one turn |
| `Evm.EVM.StartCreate` | internal/engine/op_system.go:33-65 | size limit, wrapping price and address |
| `Evm.EVM.SendCreate` | internal/engine/op_system.go:65-92 | the creator's nonce goes up even when the address is taken; otherwise all but a 64th goes out |
| `Evm.EVM.Deploy` | internal/engine/op_system.go:111-149 | a 0xEF prefix, an oversized or an unpaid deployment clears the code and undoes nothing else |
| `Evm.EVM.OpSelfdestruct` | internal/engine/op_system.go:193-221 | balance to the heir, the address recorded, execution at the next instruction |
| `Evm.EVM.OpLeave` | internal/engine/op_system.go:173-187 | RETURN and REVERT hand over the memory range |
| `Instructions.StepRunsOpcode` | internal/engine/interpreter.go:110-190 | without an edit at its step a fetch runs its opcode's handler on the state as it is, or ends the frame |
| `Instructions.FetchIsShown` | internal/engine/interpreter.go:607-658 | the step hook sees each fetch once, with the frame that fetched, less gas, and the state as it is, under the number of firings before it, and there a pause is taken |
| `Instructions.PushLaw` | internal/engine/op_stack.go:15-28 | the bytes after the opcode become the low end of a word, zero past the end of the code |
| `Instructions.DupLaw` | internal/engine/op_stack.go:30-34 | the word under n others is copied to the top |
| `Instructions.SwapLaw` | internal/engine/op_stack.go:36-40 | the top and the word below n others change places |
| `Instructions.JumpiLaw` | internal/engine/op_control.go:14-26 | destination on top, condition below: on to a JUMPDEST instruction, on by one, or an invalid jump |
| `Instructions.MloadLaw` | internal/engine/op_memory.go:5-22 | the 32 bytes at the offset; no byte of memory changes |
| `Instructions.MstoreLaw` | internal/engine/op_memory.go:24-37 | the 32 bytes of the word at the offset; no other byte changes |
| `Instructions.Mstore8Law` | internal/engine/op_memory.go:39-52 | the low byte at the offset; no other byte changes |
| `Instructions.McopyLaw` | internal/engine/op_memory.go:61-83 | the bytes as they were before the copy, overlap or not; no other byte changes |
| `Instructions.CopyLaw` | internal/engine/op_env.go:72-173 | bytes of calldata, code or return data, zero past their end except that return data may not be read past it |
| `Instructions.ExtcodecopyLaw` | internal/engine/op_env.go:135-152 | bytes of the code of the account on top of the stack |
| `Instructions.KeccakLaw` | internal/engine/op_crypto.go:13-24 | the hash of the bytes of the range |
| `Instructions.SstoreLaw` | internal/engine/op_storage.go:18-88 | the frame's own slot is given the value, every other slot and transient storage stay |
| `Instructions.TstoreLaw` | internal/engine/op_storage.go:105-120 | the same of transient storage |
| `Instructions.SelfdestructLaw` | internal/engine/op_system.go:193-221 | the heir has all there was and the account nothing, unless they are the same; no other account changes |
| `Instructions.LogLaw` | internal/engine/op_log.go:3-22 | the frame's address, the topics from the top of the stack down, the bytes of the range |
| `Instructions.LeaveLaw` | internal/engine/op_system.go:173-187 | RETURN and REVERT hand over the bytes of the range, with gas, refund and logs |
| `Instructions.ArriveWithForks` | internal/engine/gas.go:201-222 | RANDAO, PUSH0, the five opcodes of Cancun and CLZ end the frame without gas on an earlier fork |
| `Instructions.OperandsAreCapped` | internal/engine/interpreter.go:784-790 | an offset, size or gas operand is a word's last eight bytes, or the largest uint64 if there is anything before them |
| `Instructions.WordIsBigEndian` | internal/engine/interpreter.go:784-790 | a word is read as a big-endian number |
| `MemoryBytes.SetBytes` | internal/engine/memory.go:45-56 | a write that is served puts its data at its offset and changes no other byte |
| `MemoryBytes.SetServedIff` | internal/engine/memory.go:45-67 | it is served if and only if it is empty, fits, or needs no more memory than the host grants |
| `Evm.EVM.OpMload` | internal/engine/op_memory.go:5-22 | resize, read, push |
| `Evm.EVM.OpMstore` | internal/engine/op_memory.go:24-37 | a word written at the offset |
| `Evm.EVM.OpMstore8` | internal/engine/op_memory.go:39-52 | the low byte written at the offset |
| `Evm.EVM.OpMcopy` | internal/engine/op_memory.go:61-83 | the copy goes through a fresh buffer, so overlap is harmless |
| `Evm.EVM.CopyFrom` | internal/engine/op_env.go:72-113 | the slice of the source, padded with zeros to the requested size, is what is written |
| `Evm.EVM.OpExtcodecopy` | internal/engine/op_env.go:135-152 | the same from the code of the address on the stack |
| `Evm.EVM.OpReturndatacopy` | internal/engine/op_env.go:161-173 | a range past the return data, or one whose end wraps, halts |
| `Evm.EVM.OpKeccak` | internal/engine/op_crypto.go:13-24 | memory is resized even for an empty range |
| `Evm.EVM.OpJumpi` | internal/engine/op_control.go:14-26 | jumps when the condition is not zero, else moves on by one |
| `Evm.EVM.OpDup` | internal/engine/op_stack.go:30-34 | copies the n-th word; too short or too full ends the frame |
| `Evm.EVM.OpSwap` | internal/engine/op_stack.go:36-40 | exchanges the top with the n-th word below it |
| `EngineObjects.EvmStack.Push` | internal/engine/stack.go:21-26 | the 1025th word is refused and changes nothing |
| `EngineObjects.EvmStack.Pop` | internal/engine/stack.go:28-36 | the top word, or nothing and no change |
| `EngineObjects.EvmStack.Swap` | internal/engine/stack.go:53-60 | positions exchanged, or no change |
| `EngineObjects.EvmStack.Dup` | internal/engine/stack.go:62-70 | copy pushed, or the fault that applies |
| `EngineObjects.GasMeter.ConsumeGas` | internal/engine/gas.go:20-27 | a charge that cannot be paid takes what there is |
| `EngineObjects.GasMeter.DeductRefund` | internal/engine/gas.go:33-39 | the refund never goes below zero |
| `EngineObjects.EvmMemory.Resize` | internal/engine/memory.go:58-67 | grows to a whole number of words and keeps its contents |
| `EngineObjects.EvmMemory.Set` | internal/engine/memory.go:45-56 | grows if needed and overwrites the range |
| `EngineObjects.Shared.TouchAddress` | internal/engine/interpreter.go:728-738 | 2600 and warm from then on, or 100 |
| `EngineObjects.Shared.TouchSlot` | internal/engine/interpreter.go:741-751 | 2100 and warm from then on, or 100 |
| `AccountState.InMemoryAccountState.Snapshot` | internal/engine/state_impl.go:41-74 | the snapshot equals the live state and shares no map and no balance cell with it or with any other snapshot |
| `AccountState.InMemoryAccountState.RevertToSnapshot` | internal/engine/state_impl.go:76-90 | the saved maps are installed without copying, yet isolation still holds because that snapshot and all later ones go |
| `AccountState.InMemoryAccountState.AddBalance` | internal/engine/state_impl.go:163-171 | the cell is changed in place; no snapshot changes |
| `AccountState.InMemoryAccountState.SubBalance` | internal/engine/state_impl.go:173-181 | the same, downwards |
| `AccountState.InMemoryAccountState.SetBalance` | internal/engine/state_impl.go:156-161 | a new cell; no snapshot changes |
| `AccountState.InMemoryAccountState.CreateAccount` | internal/engine/state_impl.go:218-223 | balance zero, existing; nonce and code stay |
| `AccountState.InMemoryAccountState.SetCode` | internal/engine/state_impl.go:197-204 | code and its hash; no snapshot changes |
| `AccountState.AccountMaps.CopyBalances` | internal/engine/state_impl.go:52-54 | every balance in a cell of its own |
| `AccountState.AccountMaps.Bump` | internal/engine/state_impl.go:169-169 | in-place addition changes one account only, because no two accounts share a cell |
| `EngineObjects.InMemoryStorage.Set` | internal/engine/state_impl.go:297-310 | the first write of a slot records the value it replaces |
| `EngineObjects.InMemoryStorage.Seed` | internal/engine/state_impl.go:312-325 | value and original value together |
| `EngineObjects.InMemoryStorage.RevertToSnapshot` | internal/engine/state_impl.go:276-286 | data and original values as saved; an unknown id changes nothing |
| `ForkState.ForkedState.Play` | internal/forkengine/state_adapter.go:61-273 | for every strategy of operations, reads, writes, snapshots and reverts nested at will, a lazily loaded state gives the answers of the fully loaded one and ends standing for the same state |
| `ForkState.ForkedState.Perform` | internal/forkengine/state_adapter.go:61-244 | one operation: same answer, same state after |
| `ForkAccounts.ForkAccountState.EnsureLoaded` | internal/forkengine/state_adapter.go:177-209 | loading an account is invisible: the state stood for, its journal and what is still to be loaded do not change |
| `ForkAccounts.ForkAccountState.FetchAccount` | internal/forkengine/state_adapter.go:181-205 | the cached snapshot or upstream's answers; caching them changes nothing that will be fetched |
| `ForkAccounts.ForkAccountState.Seed` | internal/forkengine/state_adapter.go:275-288 | an account with a balance, nonce or code comes to exist when it is seeded |
| `ForkAccounts.ForkAccountState.Snapshot` | internal/forkengine/state_adapter.go:151-160 | wrapper and base journal stay in step |
| `ForkAccounts.ForkAccountState.RevertToSnapshot` | internal/forkengine/state_adapter.go:162-169 | un-loading since the snapshot leaves exactly the state stood for at the snapshot |
| `ForkAccounts.ForkAccountState.AddBalance` | internal/forkengine/state_adapter.go:111-114 | a balance change on top of what upstream holds |
| `ForkAccounts.ForkAccountState.CreateAccount` | internal/forkengine/state_adapter.go:146-149 | the fetched nonce and code survive, the balance does not |
| `ForkAccounts.ForkAccountState.HasCodeOrNonce` | internal/forkengine/state_adapter.go:101-104 | answers from the loaded account |
| `ForkAccounts.LoadingIsInvisible` | internal/forkengine/state_adapter.go:206-207 | seeding an account nobody touched does not change the state stood for |
| `ForkAccounts.WritingIsEager` | internal/forkengine/state_adapter.go:106-149 | a write to a loaded account is that write on the eager state |
| `ForkAccounts.FetchingIsStable` | internal/forkengine/state_adapter.go:201-204 | re-fetching after a revert finds the same values |
| `ForkSlots.ForkStorage.EnsureLoaded` | internal/forkengine/state_adapter.go:252-273 | loading a slot is invisible, and its original value is its start value |
| `ForkSlots.ForkStorage.Set` | internal/forkengine/state_adapter.go:216-219 | the value changes, the original value never does |
| `ForkSlots.ForkStorage.Original` | internal/forkengine/state_adapter.go:221-224 | the value at the start of the transaction, whatever was written or reverted since |
| `ForkSlots.ForkStorage.RevertToSnapshot` | internal/forkengine/state_adapter.go:237-244 | as for accounts |
| `ForkSlots.LoadingIsInvisible` | internal/forkengine/state_adapter.go:267-271 | seeding a slot not on record does not change the state stood for |
| `ForkSlots.WritingIsEager` | internal/forkengine/state_adapter.go:216-219 | a write to a loaded slot is that write on the eager state |
| `Eager.SeedingGives` | internal/forkengine/state_adapter.go:275-288 | a seeded account is what its snapshot stands for; the cached code hash is not used |
| `Eager.EmptyAccountComesToExist` | internal/forkengine/state_adapter.go:177-209 | an account upstream calls empty exists once it is loaded |
| `ForkLaws.UncachedAccount` | internal/forkengine/state_adapter.go:181-205 | an account with no entry under the key starts with upstream's balance, nonce and code, the hash of that code when there is any, existing and not deleted |
| `ForkLaws.CachedAccount` | internal/forkengine/state_adapter.go:181-190 | an account with an entry starts with the entry's fields, its code hash computed again |
| `ForkLaws.StartingSlot` | internal/forkengine/state_adapter.go:252-273 | a slot starts with the entry's value or upstream's, and that is its original value too |
| `Reconstruction.ForkEngine.ReconstructPriorTransactions` | internal/forkengine/engine.go:596-653 | exact exactly when the target is in the block and every predecessor is available and matches; then the synthetic key holds what those transactions, in order on one eager state, leave of the state the key stood for, which is upstream's for a key not in use; entries under other keys stay |
| `Reconstruction.ForkEngine.UnusedIsReady` | internal/forkengine/engine.go:596-606 | a key nothing is filed under can be replayed on and stands for upstream |
| `Reconstruction.ForkEngine.StartIsUpstreamIff` | internal/forkengine/engine.go:568-594 | that state is upstream's if and only if every account entry filed under the key has the provider's balance, nonce and code and stands for an account that exists, and every storage entry the provider's value |
| `Reconstruction.SecondReconstructionPaysTwice` | internal/forkengine/engine.go:568-594 | reconstructing again under the same key applies every prior transaction again: one that pays one wei is paid twice |
| `Reconstruction.ForkEngine.ReplayPrior` | internal/forkengine/engine.go:613-644 | preparing, running and committing one transaction is running it on the eager state and crossing the transaction boundary |
| `Reconstruction.ForkEngine.CommitReplayReconstructionWrites` | internal/forkengine/engine.go:655-675 | the next transaction starts from what this one left, deployed code included |
| `Reconstruction.ForkEngine.WriteBackPreparedState` | internal/forkengine/engine.go:677-708 | writing back only what is loaded loses no change |
| `Reconstruction.ForkEngine.WriteBackAccounts` | internal/forkengine/engine.go:681-700 | every loaded account is written back, nothing else changes, empty code is skipped |
| `Reconstruction.ForkEngine.WriteBackSlots` | internal/forkengine/engine.go:701-707 | every loaded slot is written back, nothing else changes |
| `Reconstruction.ForkEngine.ResolveCode` | internal/forkengine/engine.go:532-548 | the cached code or upstream's, which is then cached |
| `Reconstruction.ForkEngine.RecordCreation` | internal/forkengine/engine.go:664-670 | the creation diff repeats what was written back and changes nothing the next transaction sees |
| `WriteBack.NextIsBoundary` | internal/forkengine/engine.go:677-708 | balance, nonce, code and storage carry over, and every slot's original value is what the last transaction left |
| `WriteBack.NextAccounts` | internal/forkengine/engine.go:681-700 | what the next transaction loads is what this one left, loaded or not |
| `WriteBack.NextSlots` | internal/forkengine/engine.go:701-707 | the same for slots |
| `WriteBack.ResolvedCodeIff` | internal/forkengine/engine.go:532-548 | the code looked up beside the accounts is right if and only if the account did not lose the code it had, which CodeKept shows of every run |
| `ForkLaws.NextFinds` | internal/forkengine/engine.go:677-708 | the next transaction finds every balance, nonce, code and slot of this one's end, with no deletions and no journal |
| `ForkLaws.ChainInOrder` | internal/forkengine/engine.go:613-644 | replaying one list after another is replaying both in that order |
| `ForkLaws.CreationDeploys` | internal/forkengine/engine.go:655-675 | what a creation deploys is the code of the account it names, and all else is as its run left it |
| `EngineStrategy.ReadsAgree` | internal/forkengine/state_adapter.go:61-110 | balance, nonce, code and code hash answered in the state of a world are what the engine reads there |
| `EngineStrategy.SlotReadsAgree` | internal/forkengine/state_adapter.go:211-224 | so are a slot's value and original value |
| `CacheStore.ImportOfExport` | internal/forkengine/cache/cache.go:263-343 | importing what was exported answers every account, storage, code, block and dirty query as before, whatever order the maps were ranged over |
| `CacheStore.MemoryStore.ExportState` | internal/forkengine/cache/cache.go:263-303 | every entry of every map is listed under its decoded block reference, and nothing else |
| `CacheStore.MemoryStore.ExportDirty` | internal/forkengine/cache/cache.go:284-301 | the nested loop lists every dirty account of every block |
| `CacheStore.MemoryStore.ImportState` | internal/forkengine/cache/cache.go:305-343 | the store holds exactly what the list builds, later entries winning |
| `CacheStore.MemoryStore.MarkAccountDirty` | internal/forkengine/cache/cache.go:325-342 | flags replaced, slots added |
| `CacheStore.MemoryStore.ApplyCode` | internal/forkengine/cache/cache.go:410-421 | code, hash and existence on top of the cached snapshot |
| `CacheStore.CollectDirtyNamed` | internal/forkengine/cache/cache.go:284-301 | a block whose dirty accounts are gone is not exported and answers as one never seen |
| `CacheStore.ImportedAccount` | internal/forkengine/cache/cache.go:305-343 | of any lists, repeats included: the last entry under an address and block is the one found, and without any there is none |
| `CacheStore.ImportedSlot` | internal/forkengine/cache/cache.go:305-343 | the same of storage |
| `CacheStore.ImportedDirty` | internal/forkengine/cache/cache.go:325-342 | an account is dirty in the slots any of its entries lists, with the flags of the last one |
| `ForkLaws.GetAfterPut` | internal/forkengine/cache/cache.go:479-489 | what is put under an address and a block is found there, and every other query answers as before |
| `BlockRefs.SharedKeyIff` | internal/forkengine/upstream/types.go:34-61 | two references share a key if and only if they have the same number, or none and the same tag, where none means "latest" |
| `BlockRefs.DecodeCacheKey` | internal/forkengine/cache/cache.go:479-489 | decoding the key of a reference gives the normalized reference, for every number, negative ones included, and every tag |
| `BlockRefs.SameKeyIff` | internal/forkengine/upstream/types.go:34-61 | two references share a key if and only if they normalize to the same one |
| `Text.ParsePrinted` | internal/forkengine/upstream/types.go:55-61 | reading a printed decimal number gives it back |
| `Debugger.SessionIsLive` | internal/jsonrpc/gdb.go:301-382 | after any requests, in any order, the frame on display, memory byte for byte, is that of an uninterrupted run in which every journaled write was applied in place; and so are the variables, if every storage write since the last "next" met the condition of VariablesRightIff |
| `Debugger.NextIsLive` | internal/jsonrpc/gdb.go:301-382 | "next" captures the following step of that run in exactly its state; with no such step the session is done if the run succeeds, and if it fails the request fails and position, edits and the done flag stay |
| `Debugger.ShowsItsOwn` | internal/jsonrpc/gdb.go:641-690 | "next" shows the variables of the code running, by its own metadata or that of the fallback address, with values from the storage it runs on |
| `Debugger.RevertedRunIsNeverDone` | internal/jsonrpc/gdb.go:374-380 | PUSH1 0, PUSH1 0, REVERT: whatever is requested, the session is never done |
| `Debugger.NthNext` | internal/jsonrpc/gdb.go:301-382 | without edits the (k+1)-th "next" pauses at step k |
| `TopLaws.CreationRuns` | internal/forkengine/engine.go:481-513 | a prepared creation is one message, and fails when its code does, not when it is refused |
| `TopLaws.CreationSends` | internal/forkengine/engine.go:481-513 | that message goes from the caller to the new address with the given value, gas and init code |
| `TopLaws.CallRuns` | internal/forkengine/engine.go:330-339 | a prepared call is a transaction; it fails when its code does, or without gas, but not for want of the value |
| `Jobs.JobsPart` | internal/forkengine/engine.go:330-339 | two runs of one call or creation under hooks that differ at one step are one run, or part exactly there, and end alike if the hooks do alike there |
| `Debugger.PauseIsLive` | internal/jsonrpc/gdb.go:428-454 | a run told to pause at k pauses exactly when the uninterrupted run has step k, in its state, and otherwise ends as that run does |
| `Debugger.EditIsInPlace` | internal/jsonrpc/gdb.go:456-495 | re-running with one more journal entry gives the same pause with that entry applied |
| `Debugger.EarlierStepsKept` | internal/jsonrpc/gdb.go:456-495 | an edit leaves every earlier step as it was |
| `Debugger.WriteIsLive` | internal/jsonrpc/gdb.go:2134-2181 | a served write is journaled under the current step, disturbs no earlier one, and shows at once the frame the live run would show; right variables stay right if and only if the write meets the condition |
| `Debugger.MemoryWriteLands` | internal/jsonrpc/gdb.go:2164-2182 | on the request itself: the display, and the live pause if the host grants the memory, has the bytes of the text at the offset of the request and every other byte as before; nothing else the live pause shows has changed; a request that does not parse changes nothing |
| `Debugger.StorageWriteLands` | internal/jsonrpc/gdb.go:2134-2162 | on the request itself: the live pause has the decoded value at the decoded slot of the parsed address, or of the transaction's target, in the storage of the scope, and every other slot of both storages as before; a request that does not parse, or names no contract, changes nothing |
| `PauseDisplay.DisplayExactIff` | internal/jsonrpc/gdb.go:2212-2267 | an exact display is exact again after a served write if and only if: a memory write does not make memory end inside a word; a storage write is shown right and finds its variable listed |
| `PauseDisplay.VariablesRightIff` | internal/jsonrpc/gdb.go:2231-2245 | a served write keeps the listed variables those of the live state if and only if: written to the paused contract, every variable of the slot is the first under that text or held the value; written elsewhere, no variable is filed under the text or it shows the value already |
| `PauseDisplay.DefaultTargetMisleads` | internal/jsonrpc/gdb.go:2142-2148 | a write without an address goes to the root target and, issued while another contract is paused, is shown as that contract's variable |
| `Variables.VariablesExactIff` | internal/jsonrpc/gdb.go:2231-2245 | the same for one list, over any text of the slot |
| `Variables.CaptureReads` | internal/jsonrpc/gdb.go:1184-1206 | a capture holds the values of its slots, and a later capture is the same list with the values read again |
| `Variables.VariablesForScope` | internal/jsonrpc/gdb.go:1184-1206 | the loop and the sort compute the capture |
| `Variables.CapturedLists` | internal/jsonrpc/gdb.go:1184-1206 | a capture has an entry with the name, type, slot and value of every variable of the layout whose slot parses, and no other |
| `Variables.PutLaw` | internal/jsonrpc/gdb.go:2231-2245 | the first entry under the slot text shows the value and nothing else changes; without one, an entry named by the slot is added |
| `Variables.ByNameSorts` | internal/jsonrpc/gdb.go:1199-1204 | the list is ordered by name and loses nothing |
| `Variables.PutVariable` | internal/jsonrpc/gdb.go:2231-2245 | the first entry of the slot text gets the value text, or one is added |
| `Variables.PackedVariableIsStale` | internal/jsonrpc/gdb.go:2239-2243 | of two variables packed into one slot only the first shows a write |
| `Variables.ForeignWriteIsShown` | internal/jsonrpc/gdb.go:2239-2243 | a write to another contract is shown as a value of the paused contract's variable |
| `Debugger.ReplaySession.NextRequest` | internal/jsonrpc/gdb.go:301-382 | the request as the session object performs it: it fails exactly when the run has no further step and ends in an error |
| `Debugger.ReplaySession.CapturePause` | internal/jsonrpc/gdb.go:641-690 | frame and memory copy, and the two lists when metadata for the code is loaded |
| `Debugger.ReplaySession.ApplyToPause` | internal/jsonrpc/gdb.go:2231-2267 | the write on the list of its scope, or on the memory copy |
| `Debugger.ReplaySession.WriteRequest` | internal/jsonrpc/gdb.go:2134-2182 | served exactly when paused and well-formed: fields that parse, and a contract to write to or data a buffer can hold; then one entry is journaled, the frame shown is the live one, and a memory write shows its bytes at its offset and changes no other |
| `Evm.EVM.Fire` | internal/jsonrpc/gdb.go:428-454 | count, re-apply this step's edits, then pause or go on |
| `Evm.EVM.ApplyEdits` | internal/jsonrpc/gdb.go:456-495 | the journal entries of the step, oldest first, in place |
| `CallFrames.DescribesFields` | internal/jsonrpc/gdb.go:762-782 | what an entry says: depth, contract, code, caller, value, input and selector of that frame |
| `CallFrames.LabelsFollow` | internal/jsonrpc/gdb.go:721-760 | known frames keep their label, new ones get that of the opcode, the first is the root |
| `FrameMirror.RunMirrored` | internal/jsonrpc/gdb.go:717-760 | after every step of every nested run the frame list has depth+1 entries and entry i describes the frame active at depth i |
| `FrameMirror.JobMirrored` | internal/jsonrpc/gdb.go:717-760 | the same from the start of whatever a session replays, a call or a creation |
| `FrameMirror.FrameMirrored` | internal/jsonrpc/gdb.go:717-760 | the list may lag only by frames that ended or made no step (empty code, precompiles), and the next step repairs it |
| `CallFrames.UpdateCallFrames` | internal/jsonrpc/gdb.go:721-760 | the branches on depth compute the list of the update function |
| `CallFrames.UpdateFollows` | internal/jsonrpc/gdb.go:721-819 | seed, refresh, push or pop several at once: the updated list describes the open frames when the old one described some of their ancestors |
| `Patches.StorageMeaningKept` | internal/jsonrpc/gdb_state_patch.go:182-200 | for canonically spelled writes the compacted list leaves the same values and the same original values in every storage |
| `Patches.CompactionKeepsIff` | internal/jsonrpc/gdb_state_patch.go:182-200 | for any writes, however spelled and whether they parse or not, compaction keeps values and original values on every storage if and only if every slot written to has a survivor (of the latest writes under each spelling that parse, the one that sorts last) and it holds the value stored last |
| `Patches.StorageKeptIff` | internal/jsonrpc/gdb_state_patch.go:182-200 | when all writes parse the same condition decides for any one storage |
| `Patches.EqualSpelling` | internal/jsonrpc/gdb_state_patch.go:186-189 | writes filed under the same text go to the same slot: an address that parses holds no separator |
| `Patches.TwoSpellings` | internal/jsonrpc/gdb_state_patch.go:186-199 | two spellings of one slot are both kept in text order, so the result is right if and only if the later-written spelling sorts later or the values agree |
| `Patches.UpperCaseIsReordered` | internal/jsonrpc/gdb.go:2134-2162 | the write handler keeps the case of the digits, so slot 11 written as ...0b and then as ...0B ends with the value written first |
| `Patches.CompactStorageWrites` | internal/jsonrpc/gdb_state_patch.go:182-200 | the latest write under each spelling, once, in byte order |
| `StatePatches.ImportOfExportIff` | internal/jsonrpc/gdb_state_patch.go:42-142 | when no exported write strays, importing what was exported makes the storage edits of the session if and only if compaction keeps what the writes of each scope do |
| `StatePatches.CanonicalImportIff` | internal/jsonrpc/gdb_state_patch.go:222-241 | for canonically spelled writes: if and only if no exported persistent write has a scope text that trims to "transient" |
| `StatePatches.PaddedScopeStrays` | internal/jsonrpc/gdb_state_patch.go:227-233 | the scope text " transient " is persistent in the session and transient after import |
| `StatePatches.JournalByScope` | internal/jsonrpc/gdb.go:464-486 | a journal does to each of the two storages what its entries of that scope do |
| `StatePatches.EntryIsEdit` | internal/jsonrpc/gdb.go:456-495 | a journal entry does what a write request with the same texts does to the paused state, and nothing if that request would be refused |
| `StatePatches.ExportStatePatch` | internal/jsonrpc/gdb_state_patch.go:72-91 | each scope compacted, transient writes without their scope |
| `StatePatches.PatchMutations` | internal/jsonrpc/gdb_state_patch.go:222-241 | persistent writes under their trimmed scope, then the transient ones |
| `MemoryPatches.DisjointKeptIff` | internal/jsonrpc/gdb_state_patch.go:202-220 | for pairwise equal or disjoint ranges compaction keeps the effect on every memory if and only if no data is shadowed by a later empty write at its offset |
| `MemoryPatches.MemoryMeaningKept` | internal/jsonrpc/gdb_state_patch.go:202-220 | more generally: when the latest write at an offset is the longest there and overlapping writes come in offset order |
| `MemoryPatches.CompactMemoryWrites` | internal/jsonrpc/gdb_state_patch.go:202-220 | the latest write at each offset, once, in offset order |
| `Compaction.Compact` | internal/jsonrpc/gdb_state_patch.go:186-199 | map, sort, rebuild: no key lost, each key's latest write kept, keys strictly ascending |
| `Text.DecodeEncoded` | internal/jsonrpc/server.go:670-683 | what is encoded as hex decodes to the same bytes |
| `Text.ShortHashParses` | internal/jsonrpc/gdb.go:2604-2620 | fewer than 32 bytes read as a hash with zeros in front |
| `SourceMap.LookupNeverMisses` | internal/srcmap/index.go:70-74 | during any nested run every fetch from the mapped code finds its instruction, with the opcode that is there |
| `SourceMap.ParseInstructionMappings` | internal/srcmap/source_map.go:17-64 | one mapping per instruction in order, at the position its entries decode to; it fails exactly when entries are left over or a number cannot be read |
| `SourceMap.FieldsAreInherited` | internal/srcmap/source_map.go:79-117 | after n entries every field has the value it was last given, or its initial one; decoding fails if and only if a given number cannot be read |
| `SourceMap.IndexAnswers` | internal/srcmap/solc.go:129-137 | the index answers for exactly the instructions of the code |
| `SourceMap.BuildIndex` | internal/srcmap/solc.go:133-137 | every mapping under its pc |
| `SourceText.OffsetRoundTrip` | internal/srcmap/metadata.go:31-75 | at every rune boundary, end of file included, offset to line and column and back is the identity |
| `SourceText.OffsetOfPlace` | internal/srcmap/metadata.go:54-75 | from any offset at all, negative and past the end included, the place found leads back to the first rune boundary at or after it |
| `SourceText.ResolvesIff` | internal/srcmap/metadata.go:31-51 | a place resolves if and only if it is the place of some boundary, and then to that boundary |
| `SourceText.LineCountsNewlines` | internal/srcmap/metadata.go:54-75 | the line is one more than the newline bytes before the boundary |
| `SourceText.PlaceAdvances` | internal/srcmap/metadata.go:54-75 | the text starts at line 1, column 1; past a newline a line starts, past any other rune the column is one more |
| `SourceText.OffsetForLineColumn` | internal/srcmap/metadata.go:31-51 | the loop finds the place |
| `SourceText.LineColumnForOffset` | internal/srcmap/metadata.go:54-75 | the loop computes the place |

## Left out

- The arithmetic, comparison, bitwise, environment and block opcodes: each pops its operands and pushes a word given by
  a parameter; they would only add easy members.
- LOG and CREATE in the exact memory total (`MemoryMeter`): they charge for growth that the code does not make; gas and
  conservation include them.
- CREATE's late failures are modelled as the code treats them (code cleared, nothing else undone); no rollback is claimed
  for them.
- Transient storage and the access list are not rolled back by the code and no rollback is claimed; LOG is not blocked
  in static frames and logs are not part of static purity.
- Hooks that replace results or skip instructions, access hooks, breakpoints, pause requests from another thread,
  "continue", and all locking.
- The rendering of a pause: source positions, locals, the capped memory text, and the call-type label of a frame, which
  reads the first opcode a child fetches. Which loaded metadata belongs to a code address is a parameter, and metadata
  loaded in the middle of a run is not modelled.
- `PauseDisplay.Display` holds the whole frame, of which the session shows stack, memory, pc, gas and addresses; variables
  of the same name are listed in the order of the layout, where Go's sort leaves their order open.
- `Debugger.Prepared`: preparing a run again gives the same run; the short cut for a replay whose recorded trace is empty
  (done without running) and the result kept by a session that is done are left out.
- Deployment after a root creation: `Jobs.RunCreation` ends where the message ends, which is where an error is decided.
- TopLevel.NoWriteLeftIff: before Shanghai a gas limit of 2305 or 2306 is left open, because what the cheapest
  instructions push there is a parameter.
- State patches: an import puts every edit at step 0, whatever step it was made at, and `StatePatches` compares the edits
  applied at one point; exporting one scope only, the base-block check and the registry of patches are left out.
- Upstream errors: a failed fetch panics and ends the frame; the provider here always answers.
- A cache imported with code that its account entries do not have: `ReconstructPriorTransactions` asks for a key on
  which the two agree (`Ready`), which keys not in use do and reconstruction keeps up.
- Contents the code keeps in nested maps (address, then slot) are flat maps keyed by pairs; the six account maps of a
  state are one object; byte slices are values, so nil and empty are the same.
- `EVM.OpOther`: the remaining frame-local handlers (one-word opcodes, LOG, STOP, JUMPDEST) evaluate their step function
  and write the result back, instead of being written out statement by statement; `ReplaySession.NextRequest` likewise
  runs the engine as the function `RunJob`.
- InMemoryAccountState.SetBalance: negative amounts are not excluded, as in the code; `Conservation` shows that runs of
  the engine never produce one.
- StorageTelescope.SstoreTelescopes: the refund counter is taken not to wrap, below 2^64 - 30000 per store.
- StorageRun.RunTelescopes: the same bound; and stores of a called frame are metered by that frame, so a run is followed
  between two messages.
- MemoryStore's per-diff and per-overlay loops (`ApplyStateDiff`, `ApplyOverlay`) beyond the creation diff: each is a
  sequence of the single writes modelled here.
- JSON-RPC transport, request decoding, compilation, explorer access, ABI and AST handling, OpenChain lookup, variable
  peeking, the command line and plugins.
