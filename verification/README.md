# Verification of the delta log, the circuits, the snapshot format and the one-time descriptor

A Dafny 4.11 project that models four parts of this repository and proves what they promise.
`dafny verify dfyconfig.toml` checks all of it.

**The append-only delta log** (`crates/wasm-delta`). Values, rows, changes and entries have a
self-delimiting encoding; records are versioned envelopes; every entry stores the inverse computed
against the table it found. `Codec`, `Values`, `Rows`, `Deltas` and `Journal` give each operation as a
function of its inputs. `Writers`, `Readers` and `Store` are the code's own form (buffers pushed to,
decoding loops, a log object whose tables are patched in place), each method proved against those
functions. One predicate, `Faithful`, states round trip and prefix-freedom together: whatever follows
a complete encoding is left alone, and every strict prefix of it is torn, never a value and never
corrupt. `Spelling` and `RecordSpelling` say, without mentioning the decoders, what bytes mean what:
each decoder accepts exactly the spellings of its result, a torn verdict is one that later bytes can
change, and a refused journal names the first faulty record. Two invariants carry the rest: `Consistent`, true of every log that opened, whatever bytes it
came from, and `Authentic`, true of every log grown by appends. Appends, rewinds and crashes at any
byte offset keep `Authentic` over whole runs, and crash recovery, the reopen law and the rewind law
are read off it.

**Stream circuits** (`generated/rust/circuit_generated.rs`). `Circuits` evaluates a node at a tick
over a stream (a function from ticks to values; integers are unbounded). Feedback is defined without
a memo and proved to be the unique solution of its equation. `CircuitMemo` is the evaluator as it
runs: running sums in a loop, feedback filling a memo object. The closures it passes around are
spelled out as a `Source` datatype because reading one can fill the memos it captured. It is proved
equal to the unmemoised evaluator and to terminate, on ticks first and then on size.
`Incrementalization` proves the rewriting node by node, feedback included, on streams of differences;
`Shapes` reads off a circuit where pairs flow in it; `Certificate` says for which circuits, streams and
oracles the certificate holds, and `HiddenLoss` what is left when a lost pair does not show.
`NodeLaws` fixes the nodes against one another and gives the shipped order total in closed form.

**Universe snapshots** (`crates/guestlang-host/src/hostgen.rs`). The renderer of the Lean authority is
the specification; the Rust parser is proved to invert it exactly on the universes the format can
hold. `SnapshotTypeSpelling` and `SnapshotSpelling` turn to arbitrary text: a type token, and a whole
text, is accepted exactly if it spells what was read (the rendering up to leading zeros in dimensions
and blank lines), and an error names the first line that is not taken.

**The one-time file descriptor** (`patches/getrandom-0.3.4/src/backends/use_file.rs`). A transition
system with any number of threads. Each atomic access, system call and return is one step, the weak
exchange may fail spuriously, sleepers may wake spuriously, opening may fail, and a thread may call
again after it returned. Safety and the absence of lost wakeups are inductive invariants over every
run; a sleeper is at most three steps of one other thread away from being woken, whatever the rest do
in between. Progress is stated too: wherever a run may be, a thread in a call is at most three steps of
one other thread and six of its own away from returning.

## Where the code and its comments differ

The model follows the code.

- `codec.rs:29-31` and `48-50` call value overflow corrupt. The shift at `codec.rs:59` only checks the
  shift amount, so a tenth digit loses bits silently, and neither rejection in the loop can ever fire
  (`Readers.ShiftStep`). `Codec.VarnatVerdict` gives the actual verdicts, `Codec.VarnatCanonicalIff`
  says exactly when accepted bytes are the encoder's own, and `Codec.PaddedVarnat` gives the families
  that are not.
- `value.rs:197-198` says ranges are guarded. Narrow signed decodes wrap (`value.rs:227`);
  `Values.WrapShrinks` says exactly when the code survives.
- `log.rs:608-612` promises that a rewind restores the state. `open_with` does not recheck stored
  inverses, so this is false of arbitrary decodable journals (`LogLaws.WrongInverse`);
  `LogLaws.RewindIff` gives the exact condition on the stored inverses.
- `hostgen.rs:359-360` writes a tensor without dimensions as `tensor(;elem)`. Both the parser and the
  renderer use `tensor(elem)`, and the lone semicolon is refused
  (`SnapshotTypeLaws.LoneSemicolonRefused`).
- `circuit_generated.rs:5-8` cites a certificate for all circuits: the rewritten circuit is
  `Incremental` of the whole. The evaluator has only the scalar zero, so running sums drop pairs
  (`CircuitLaws.DerivativeOfIntegralIff`), and an `Incremental` left on a pair stream loses it. The
  certificate is proved for every circuit on scalar input in which each lift that ever reads a pair is
  vouched for, feedback and stages behind parallel branches included
  (`Incrementalization.IncrementalizeCorrect`); a static check decides that exactly
  (`Shapes.ClearIff`). Each condition is exact: `Certificate.CertifiedIff` for the circuit, as long as a
  pair that gets lost shows in the shape of the output (what lifts compute decides the others,
  `HiddenLoss.ZerosIff`), `Certificate.CertifiedStreamIff` for the input,
  `Certificate.CertifiedOracleIff` for the oracle. Two plain failures:
  `Certificate.UnvouchedLoopBreaks`, at tick 0 of every stream, and `Certificate.PairInputBreaks`.

## Model

| member | source | states |
|---|---|---|
| Codec.EncVarnatShape | crates/wasm-delta/src/codec.rs:35-46 | the encoder writes base-128 digits of `n`, continuation on all but the last, no padding digit |
| Codec.EncVarnatAtMostTen | crates/wasm-delta/src/codec.rs:29-31 | every u64 fits in ten digits |
| Codec.VarnatFaithful | crates/wasm-delta/src/codec.rs:35-67 | decode inverts encode whatever follows; every strict prefix is torn |
| Codec.VarnatVerdict | crates/wasm-delta/src/codec.rs:51-67 | exactly which bytes are torn, and exactly which are corrupt |
| Codec.VarnatStable | crates/wasm-delta/src/codec.rs:51-67 | a value or CORRUPT is the verdict on every extension too |
| Codec.VarnatSound | crates/wasm-delta/src/codec.rs:51-67 | an accepted varint depends only on the bytes used and re-encodes in no more of them; exact below ten digits |
| Codec.VarnatCanonicalIff | crates/wasm-delta/src/codec.rs:48-67 | accepted bytes are the encoder's own iff no padding digit and no lost bits in a tenth digit |
| Codec.PaddedVarnat | crates/wasm-delta/src/codec.rs:58-60 | the accepted families that are not: padded zeros, and a tenth digit whose bits vanish |
| Codec.GoldenVectors | crates/wasm-delta/src/codec.rs:144-178 | the published byte vectors, written and read back, with the torn and corrupt verdicts |
| Codec.BytesFaithful | crates/wasm-delta/src/codec.rs:85-101 | length-prefixed bytes: append-form round trip, strict prefixes torn |
| Codec.BytesSound | crates/wasm-delta/src/codec.rs:93-101 | accepted bytes depend only on what was used and re-encode no longer |
| Codec.EnvelopeFaithful | crates/wasm-delta/src/codec.rs:105-138 | an envelope decodes to itself whatever follows; cut anywhere it is torn |
| Codec.EnvelopeStable | crates/wasm-delta/src/codec.rs:128-138 | only a torn envelope verdict can change with more bytes |
| Codec.EnvelopeSound | crates/wasm-delta/src/codec.rs:128-138 | an accepted envelope is decided by the bytes of its own length |
| Readers.ReadVarnat | crates/wasm-delta/src/codec.rs:51-67 | the accumulator loop computes the digit sum modulo 2^64, with the specified verdicts |
| Readers.ShiftStep | crates/wasm-delta/src/codec.rs:58-60 | in every turn the shift is in range and the checked addition cannot overflow |
| Values.ZigzagBijection | crates/wasm-delta/src/value.rs:89-108 | zigzag and unzigzag are inverse both ways between i64 and u64 |
| Values.ZigzagOrder | crates/wasm-delta/src/value.rs:89-108 | codes go by magnitude, the negative first: 0, -1, 1, -2, 2, ... |
| Values.WrapShrinks | crates/wasm-delta/src/value.rs:225-236 | a narrow signed decode lands in range, never grows its code, keeps it iff it was in range |
| Values.DecValue | crates/wasm-delta/src/value.rs:201-291 | a decoded value has the requested type and used at least one and at most all bytes |
| ValueLaws.ValueFaithful | crates/wasm-delta/src/value.rs:156-291 | every nested type, matching value and trailing bytes: exact round trip; every strict prefix torn |
| ValueLaws.ListFaithful | crates/wasm-delta/src/value.rs:187-192 | the same for the elements of a list, element by element |
| ValueLaws.CharsFaithful | crates/wasm-delta/src/value.rs:167-172 | the same for the codepoints of a string |
| ValueLaws.ValueStable | crates/wasm-delta/src/value.rs:201-291 | more bytes never change a value or a CORRUPT verdict, at any type |
| ValueLaws.ValueSound | crates/wasm-delta/src/value.rs:201-291 | whatever bytes are accepted, the value is decided by those used and re-encodes in no more of them |
| ValueLaws.ValueLocal | crates/wasm-delta/src/value.rs:146-151 | inputs that agree on the bytes used decode alike |
| ValueLaws.EncValuePrefixFree | crates/wasm-delta/src/value.rs:135-144 | no encoding is a prefix of another of the same type |
| ValueLaws.EncValueInjective | crates/wasm-delta/src/row.rs:134-137 | byte keys are canonical: equal encodings, equal values |
| Spelling.NatIff | crates/wasm-delta/src/codec.rs:51-67 | a varint is accepted iff its bytes are a digit run, at most ten, whose digit sum modulo 2^64 is the value |
| Spelling.IntegerMeans | crates/wasm-delta/src/value.rs:211-240 | which codes mean which integer: the code itself, in range, for unsigned types; for narrow signed ones any code whose integer differs by a multiple of the width |
| Spelling.ValueIff | crates/wasm-delta/src/value.rs:201-291 | every type, arbitrary bytes: accepted as this value iff the bytes used spell it; no other boolean byte, tag, code or codepoint is |
| Spelling.EncShortest | crates/wasm-delta/src/value.rs:156-195 | the encoder writes a spelling, and no spelling is shorter |
| Spelling.TornIff | crates/wasm-delta/src/value.rs:146-151 | bytes are torn iff some continuation changes the verdict |
| Spelling.FirstFault | crates/wasm-delta/src/value.rs:201-291 | a flag or tag above 1, a U16 or U32 code out of range, an invalid codepoint and an overlong varint are corrupt, not torn |
| Writers.PushVarnat | crates/wasm-delta/src/codec.rs:35-46 | appends exactly the encoding to the buffer |
| Writers.PushEnvelope | crates/wasm-delta/src/codec.rs:105-109 | appends exactly the envelope |
| Writers.PushValue | crates/wasm-delta/src/value.rs:156-195 | appends exactly the value's encoding, nothing on a mismatched pair |
| Writers.PushRow | crates/wasm-delta/src/row.rs:114-118 | appends the fields' encodings in schema order |
| Writers.PushKey | crates/wasm-delta/src/row.rs:147-155 | appends the key and says so, or writes nothing and says no |
| Writers.PushChange | crates/wasm-delta/src/log.rs:225-236 | appends tag and payload; on an ill-typed key the tag alone, and says so |
| Writers.PushEntry | crates/wasm-delta/src/log.rs:256-260 | appends table, change and inverse, or says the entry does not encode |
| Readers.ReadChars | crates/wasm-delta/src/value.rs:241-253 | the codepoint loop computes the specified decoding |
| Readers.ReadValue | crates/wasm-delta/src/value.rs:201-291 | the decoder with its loops computes the specified decoding |
| Readers.ReadList | crates/wasm-delta/src/value.rs:280-289 | the element loop computes the specified decoding |
| Readers.ReadRow | crates/wasm-delta/src/row.rs:121-132 | the field loop computes the specified decoding |
| Rows.DecRow | crates/wasm-delta/src/row.rs:121-132 | a decoded row passes the schema's check |
| Rows.RowFaithful | crates/wasm-delta/src/row.rs:112-132 | row round trip in append form; strict prefixes torn |
| Rows.RowSound | crates/wasm-delta/src/row.rs:120-132 | a decoded row is decided by the bytes used and re-encodes no longer |
| Rows.KeyLeads | crates/wasm-delta/src/row.rs:134-155 | a row is its key bytes followed by its other fields; two rows share a slot iff their first values are equal |
| RecordSpelling.RowIff | crates/wasm-delta/src/row.rs:120-132 | accepted as this row iff the bytes used spell its fields in schema order |
| Deltas.InvertCorrect | crates/wasm-delta/src/delta.rs:105-129 | a well-typed change has a well-typed inverse on the same slot, and patching it after the change restores the table |
| Deltas.InvertTwice | crates/wasm-delta/src/delta.rs:109-116 | the inverse of the inverse is the change, insert and update exchanged only as the slot dictates |
| Deltas.InverseIs | crates/wasm-delta/src/delta.rs:105-129 | which change the inverse is: put back what was removed, restore what was overwritten, remove what was new |
| Deltas.PatchedKeyed | crates/wasm-delta/src/delta.rs:87-102 | patching keeps every row under its own key bytes |
| Deltas.LookupRefines | crates/wasm-delta/src/row.rs:134-145 | looking up key bytes is looking up the key value |
| Deltas.PatchRefines | crates/wasm-delta/src/delta.rs:61-102 | patching a byte-keyed table is patching the table keyed by value |
| JournalLaws.ChangeFaithful | crates/wasm-delta/src/log.rs:224-253 | change round trip in append form; strict prefixes torn |
| JournalLaws.EntryRoundTrip | crates/wasm-delta/src/log.rs:255-273 | an entry's payload decodes to the entry, fully consumed |
| JournalLaws.ChangeSound | crates/wasm-delta/src/log.rs:233-253 | an accepted change is decided by the bytes used and re-encodes no longer |
| JournalLaws.EntrySound | crates/wasm-delta/src/log.rs:262-273 | an accepted payload re-encodes in no more bytes |
| Journal.DecEntry | crates/wasm-delta/src/log.rs:262-273 | a decoded entry names a known table and both its changes fit the schema |
| Journal.ScanFrom | crates/wasm-delta/src/log.rs:419-461 | the scan keeps a prefix and yields only entries that fit their schemas; it ends because every envelope is non-empty |
| JournalLaws.ScanRecord | crates/wasm-delta/src/log.rs:439-459 | a record scans to its entry, then to what follows |
| JournalLaws.ScanTornRecord | crates/wasm-delta/src/log.rs:427-432 | a record cut short anywhere scans to nothing |
| JournalLaws.SurvivorsExact | crates/wasm-delta/tests/crash_recovery.rs:71-116 | the survivors of a cut are exactly the records that end at or before it |
| JournalLaws.ScanCut | crates/wasm-delta/src/log.rs:419-470 | a journal cut at any offset scans to exactly the surviving entries, kept to the last record boundary |
| JournalLaws.ScanIff | crates/wasm-delta/src/log.rs:419-470 | on arbitrary bytes: accepted iff the kept bytes split into complete records, one per entry, before an empty or torn tail |
| JournalLaws.ScanKept | crates/wasm-delta/src/log.rs:427-432 | opening what recovery kept gives the same entries and cuts nothing |
| JournalLaws.ScanAppended | crates/wasm-delta/src/log.rs:508-510 | a record appended to any complete journal scans behind its entries |
| RecordSpelling.ChangeIff | crates/wasm-delta/src/log.rs:233-253 | accepted as this change iff the bytes used spell tag 0, 1 or 2 and the payload |
| RecordSpelling.EntryIff | crates/wasm-delta/src/log.rs:262-273 | accepted as this entry iff the whole payload spells name, change and inverse, in that order, to the last byte |
| RecordSpelling.EnvelopeIff | crates/wasm-delta/src/codec.rs:128-138 | accepted as this envelope iff the bytes used spell version, fingerprint and a counted payload |
| RecordSpelling.EnvelopeTornIff | crates/wasm-delta/src/codec.rs:128-138 | an envelope is torn iff some continuation changes the verdict |
| RecordSpelling.CompleteIff | crates/wasm-delta/src/log.rs:439-459 | a complete record is a spelling of version 1, the fingerprint and a payload that spells its entry |
| RecordSpelling.JournalIff | crates/wasm-delta/src/log.rs:419-461 | arbitrary bytes scan to these entries iff they split into spelled records, version 1, before an empty or torn tail |
| RecordSpelling.RefusedIff | crates/wasm-delta/src/log.rs:424-461 | refused with this error iff, after complete records, the next one has this fault first, at this offset |
| RecordSpelling.OtherVersionRefused | crates/wasm-delta/tests/crash_recovery.rs:165-180 | a complete envelope whose first byte is below 128 and not 1 is refused with that version |
| RecordSpelling.VersionByte | crates/wasm-delta/tests/crash_recovery.rs:165-180 | any record with its first byte replaced so is refused, whatever follows |
| RecordSpelling.ChangeWritten | crates/wasm-delta/src/log.rs:225-236 | an encoded change is literally byte 0, 1 or 2 and its row or key |
| RecordSpelling.RecordWritten | crates/wasm-delta/src/log.rs:255-273 | a record is literally byte 1, the fingerprint, the length of the payload, and the payload: name, change, inverse |
| RecordSpelling.AppendBytes | crates/wasm-delta/src/log.rs:479-518 | a successful append adds exactly that, byte 1 first, and nothing else |
| RecordSpelling.GoldenJournal | crates/wasm-delta/src/log.rs:479-518 | one append in full: from the empty log to the bytes 1, 42, 5, 0, 0, 1, 2, 1 and back |
| LogLaws.RebuildIsReplay | crates/wasm-delta/src/log.rs:546-606 | the interleaved rebuild equals each table's own replay; a table exists iff some entry names it |
| LogLaws.AppendOutcome | crates/wasm-delta/src/log.rs:479-543 | an append goes through iff table known, change fits, record fits; later refusals never fire; the stored inverse is the computed one |
| LogLaws.AppendRefusal | crates/wasm-delta/src/log.rs:479-543 | which error a refused append gives, in which order |
| LogLaws.AppendConsistent | crates/wasm-delta/src/log.rs:472-518 | an append keeps bytes, entries and tables in step, on any opened log |
| LogLaws.AppendAuthentic | crates/wasm-delta/src/log.rs:472-518 | an append keeps every stored inverse right and the bytes canonical |
| LogLaws.LawfulUndoes | crates/wasm-delta/src/log.rs:12-15 | each stored inverse, patched onto the state after its entry, gives the state before it |
| LogLaws.CrashRecovery | crates/wasm-delta/src/log.rs:21-25 | a log cut at any byte offset reopens without error to exactly the survivors, truncated at a record boundary, still authentic |
| LogLaws.AppendAfterCrash | crates/wasm-delta/tests/crash_recovery.rs:118-135 | after recovery an append lands behind the survivors and reopens so |
| LogLaws.ReopenIdentity | crates/wasm-delta/tests/inversion.rs:91-108 | reopening the whole bytes gives the same entries, inverses and tables |
| LogLaws.OpenConsistent | crates/wasm-delta/src/log.rs:419-470 | any bytes that open: tables are the replay, bytes a prefix that opens to the same log |
| LogLaws.Compensate | crates/wasm-delta/src/log.rs:616-627 | right inverses applied last first walk the tables back entry by entry |
| LogLaws.CompensationFits | crates/wasm-delta/src/log.rs:616-627 | a compensation's record is as long as the one it compensates, so it always fits |
| LogLaws.AppendAllExtends | crates/wasm-delta/src/log.rs:608-612 | old entries and bytes stay an exact prefix under any appends |
| LogLaws.RewindWrites | crates/wasm-delta/src/log.rs:616-627 | entry by entry what a rewind appends: the stored inverses, last one first |
| LogLaws.RewindLaw | crates/wasm-delta/src/log.rs:608-627 | rewinding never errors; every table equals its replay of the first entries; nothing written changes |
| LogLaws.RewindUndone | crates/wasm-delta/src/log.rs:608-627 | a second rewind, to the old length, restores the tables |
| LogLaws.RewindAfterCrash | crates/wasm-delta/tests/inversion.rs:91-108 | the rewind law holds after reopening from any cut |
| LogLaws.RewindFits | crates/wasm-delta/src/log.rs:616-627 | compensating any journal a byte vector can hold never needs a record too large for one |
| LogLaws.RewindIff | crates/wasm-delta/src/log.rs:616-627 | an arbitrary journal (of any size a byte vector can have) rewinds to every position iff each stored inverse is right at its own |
| LogLaws.WrongInverse | crates/wasm-delta/tests/inversion.rs:110-151 | any insert stored as its own inverse makes a journal that opens and does not rewind |
| LogLaws.WrongInverseExample | crates/wasm-delta/tests/inversion.rs:110-151 | such a journal in full, for one boolean table |
| LogLaws.NextAuthentic | crates/wasm-delta/src/log.rs:389-397 | appends, rewinds and crashes all keep the log invariant; rewinds and reopenings never fail |
| LogLaws.RunAuthentic | crates/wasm-delta/src/log.rs:389-397 | after any sequence of events: inverses right, bytes canonical, tables equal `state_at` the full length, reopening gives the log back |
| Store.MemBackend.Truncate | crates/wasm-delta/src/log.rs:329-333 | keeps the prefix, or everything if it is shorter |
| Store.Table.Patch | crates/wasm-delta/src/delta.rs:87-102 | the in-place patch is the specified one |
| Store.DeltaLog.PatchTable | crates/wasm-delta/src/log.rs:512-515 | creates or reuses the table object and patches it alone |
| Store.DeltaLog.RebuildStates | crates/wasm-delta/src/log.rs:546-556 | the tables become the replay of the entries |
| Store.DeltaLog.Recover | crates/wasm-delta/src/log.rs:420-461 | the scan loop computes the specified scan and truncates exactly the torn tail |
| Store.DeltaLog.OpenWith | crates/wasm-delta/src/log.rs:419-470 | the opened object is the specified log, valid; a refused journal is untouched |
| Store.DeltaLog.Append | crates/wasm-delta/src/log.rs:479-518 | the specified append on bytes, entries and tables; a refused change leaves no trace; invariants kept |
| Store.DeltaLog.RewindTo | crates/wasm-delta/src/log.rs:616-627 | the compensation loop; on an authentic log no error, every table at its replay, prefix untouched |
| Store.DeltaLog.StateAt | crates/wasm-delta/src/log.rs:597-606 | the prefix replay; at full length it is the materialized table |
| CircuitLaws.Causal | generated/rust/circuit_generated.rs:99-161 | for every node, the output at a tick depends only on the input up to that tick |
| CircuitLaws.FixSolves | generated/rust/circuit_generated.rs:131-133 | feedback satisfies alpha(n) = body(s paired with delayed alpha)(n) |
| CircuitLaws.FixUnique | generated/rust/circuit_generated.rs:131-133 | and is the only stream that does |
| CircuitLaws.DerivativeOfIntegralIff | generated/rust/circuit_generated.rs:86-110 | differences of the running sum restore the stream iff it is scalar |
| CircuitLaws.IntegralOfDerivativeIff | generated/rust/circuit_generated.rs:86-110 | the running sum of differences restores the stream iff it is scalar |
| NodeLaws.DelayShifts | generated/rust/circuit_generated.rs:103-105 | k + 1 delays in a row output the input k + 1 ticks earlier, zero before |
| NodeLaws.StrictlyCausal | crates/guestlang-host/tests/replay.rs:95-101 | behind a delay, the output at a tick depends on earlier ticks only, and is zero at tick 0 |
| NodeLaws.RunningSum | generated/rust/circuit_generated.rs:86-97 | the running sum is its own delay plus the current input, on every stream |
| NodeLaws.DerivativeOfDelay | generated/rust/circuit_generated.rs:106-109 | a derivative is the input less the delayed input, on every stream |
| NodeLaws.DelayedChanges | generated/rust/circuit_generated.rs:103-109 | delaying and differentiating commute on every stream |
| NodeLaws.DelayedLoop | crates/guestlang-host/tests/replay.rs:103-129 | the loop of running sum beside delay outputs the running sum paired with its own output two ticks back |
| NodeLaws.AddSub | generated/rust/circuit_generated.rs:25-50 | addition and subtraction undo each other on values of one shape; a mixed pair keeps its left operand |
| NodeLaws.OrderTotal | generated/rust/circuit_generated.rs:67-77 | the order total in closed form: twice the sum of the squares so far |
| NodeLaws.OrderTotalExamples | crates/guestlang-host/tests/replay.rs:64-72 | 2(n + 1) on ones, n(n + 1)(2n + 1)/3 on the ticks themselves |
| Incrementalization.LiftDropIff | generated/rust/circuit_generated.rs:118-121 | a lift is its own incremental form iff it is additive |
| Incrementalization.LeafIncremental | generated/rust/circuit_generated.rs:103-117 | delay, derivative, integral and additive lifts are their own incremental form on scalar streams |
| Incrementalization.IncrementalSeqIff | generated/rust/circuit_generated.rs:111-125 | incremental of a composition is the composition of the incrementals, whatever the second stage, iff the first stage is scalar on running sums |
| Incrementalization.IncrementalPar | generated/rust/circuit_generated.rs:111-130 | on every stream, incremental of parallel branches is the parallel of their incrementals |
| Incrementalization.CommutesFeedback | generated/rust/circuit_generated.rs:131-159 | if the rewritten body turns differences into differences inside the loop, so does the rewritten loop |
| Incrementalization.VouchedCommutes | generated/rust/circuit_generated.rs:3-8 | fed differences, the rewritten circuit outputs differences: every node, on every stream whose pairs grow out of zeros, if each lift that reads a pair is vouched for |
| Incrementalization.IncrementalizeCorrect | generated/rust/circuit_generated.rs:3-8 | on scalar input the rewritten circuit outputs, at every tick, what `Incremental` of the whole outputs, if each lift that ever reads a pair is vouched for |
| NodeLaws.RewritingIff | generated/rust/circuit_generated.rs:3-8 | the rewriting of a circuit is the only circuit with `Incremental` at exactly the nonlinear lifts that strips back to it |
| Shapes.OutShaped | generated/rust/circuit_generated.rs:99-161 | the computed shape holds at every tick: no pair where it says scalar |
| Shapes.OutFilled | generated/rust/circuit_generated.rs:99-161 | and from some tick on there is a pair wherever it says pair |
| Shapes.OutKnown | generated/rust/circuit_generated.rs:131-159 | following loops for some turns makes the shape known as many places deep |
| Shapes.ClearIff | generated/rust/circuit_generated.rs:118-121 | the static check passes iff each lift that ever reads a pair, on whatever scalar stream, is vouched for |
| Certificate.ClearCertified | generated/rust/circuit_generated.rs:3-8 | every circuit that passes the check is certified on every scalar stream |
| Certificate.LossBreaks | generated/rust/circuit_generated.rs:3-8 | if the rewriting loses a pair from the shape of the output, the certificate fails on every stream of the input's shape |
| Certificate.LossBreaksAll | generated/rust/circuit_generated.rs:3-8 | and on every stream at all, if it does whatever the input's shape |
| Certificate.CertifiedIff | generated/rust/circuit_generated.rs:3-8 | circuit by circuit: certified on a scalar stream iff every lift on a pair stream is vouched for (a circuit where one is not is covered if the lost pair shows in the shape of its output) |
| Certificate.DeepLoopCertified | generated/rust/circuit_generated.rs:131-159 | a loop whose lift reads what was fed back two turns ago, always a scalar, is certified for every lift and oracle |
| Certificate.CertifiedStreamIff | generated/rust/circuit_generated.rs:3-8 | stream by stream: every circuit that passes the check is certified iff the stream is scalar |
| Certificate.CertifiedOracleIff | generated/rust/circuit_generated.rs:3-8 | oracle by oracle: iff only additive lifts are vouched for |
| Certificate.UnvouchedLoopBreaks | generated/rust/circuit_generated.rs:118-121 | feedback around an unvouched lift outputs a scalar where a pair is due, at tick 0 of every stream |
| Certificate.MaskedBySum | generated/rust/circuit_generated.rs:86-97 | where a later stage sums the lost pairs away, the certificate depends on the lift's value at zero |
| Certificate.MaskedBySplit | generated/rust/circuit_generated.rs:126-130 | where a later stage splits them into scalars, a lift that is zero everywhere hides the loss |
| HiddenLoss.CutThrough | generated/rust/circuit_generated.rs:99-161 | the rewriting only ever cuts: each place of its output never holds a pair or holds one at the very ticks the original's does |
| HiddenLoss.SamePlaces | generated/rust/circuit_generated.rs:3-8 | if the shape of the output is not changed, both sides have pairs in the same places at every tick of every scalar stream |
| HiddenLoss.ZerosIff | generated/rust/circuit_generated.rs:3-8 | on zeros, with lifts that leave zero alone, a circuit is certified iff the rewriting does not change the shape of its output |
| Certificate.OrderTotalCorrect | generated/rust/circuit_generated.rs:70-84 | the shipped incremental circuit is the rewriting of the batch one, and they agree at every tick of every stream |
| Certificate.PairInputBreaks | generated/rust/circuit_generated.rs:16-50 | two delays side by side fail on a stream of pairs |
| CircuitMemo.Sum | generated/rust/circuit_generated.rs:87-97 | the loop computes the running sum |
| CircuitMemo.Read | generated/rust/circuit_generated.rs:146-149 | applying a captured closure gives the true stream value and keeps every memo true |
| CircuitMemo.Run | generated/rust/circuit_generated.rs:101-161 | the evaluator equals the unmemoised one at every tick, whatever was cached, and terminates |
| CircuitMemo.Go | generated/rust/circuit_generated.rs:136-157 | the memoised recursion returns the fixpoint's value and leaves it cached; every filled cell stays true |
| CircuitMemo.Memo.Set | generated/rust/circuit_generated.rs:151-155 | resize then fill: one cell changes |
| CircuitMemo.Evaluate | generated/rust/circuit_generated.rs:99-101 | evaluation from the outside, memo and all, is the denotation |
| SnapshotTypeSpelling.DimsRoundTrip | crates/guestlang-host/src/hostgen.rs:363-382 | decimal dimensions read back, up to what is not a digit |
| SnapshotTypeSpelling.TyRoundTrip | crates/guestlang-host/src/hostgen.rs:232-394 | a rendered type parses back, leaving the rest, at any depth that leaves room |
| SnapshotTypeLaws.ParseSound | crates/guestlang-host/src/hostgen.rs:232-394 | any accepted type has scalar keys, closable references, allowed depth, and names made of the text |
| SnapshotTypeSpelling.TyRoundTripIff | crates/guestlang-host/src/hostgen.rs:218-230 | exactly which types survive: gated, and at most 64 constructors deep |
| SnapshotTypeLaws.LoneSemicolonRefused | crates/guestlang-host/src/hostgen.rs:358-372 | `tensor(;` is refused whatever follows |
| SnapshotTypeSpelling.DimIff | crates/guestlang-host/src/hostgen.rs:363-382 | a dimension is spelled by its decimal rendering behind any zeros, and by nothing else |
| SnapshotTypeSpelling.TyAtIff | crates/guestlang-host/src/hostgen.rs:232-394 | on arbitrary text: this type is read and this rest left iff the text is a spelling followed by the rest, gated and shallow enough |
| SnapshotTypeSpelling.TyTextIff | crates/guestlang-host/src/hostgen.rs:218-230 | a whole type token is accepted iff it is a spelling to the last character, gated and at most 64 deep |
| SnapshotTypeSpelling.RenderSpells | lean/schema-lang/SchemaLang/Snapshot.lean:63-95 | what the renderer writes is a spelling |
| SnapshotTypeSpelling.NestIff | crates/guestlang-host/src/hostgen.rs:906-913 | n nested options are read iff n is at most 64 |
| SnapshotTypeSpelling.KeyIff | crates/guestlang-host/src/hostgen.rs:232-394 | a set is read iff its element is one of the ten key scalars |
| SnapshotTypeSpelling.ScalarWords | crates/guestlang-host/src/hostgen.rs:232-394 | every scalar word, read as its type |
| SnapshotTypeSpelling.ConstructorWords | crates/guestlang-host/src/hostgen.rs:232-394 | every constructor word around its arguments, in order |
| SnapshotReader.ReadDims | crates/guestlang-host/src/hostgen.rs:363-382 | the dimension loop computes the specified parse |
| SnapshotLaws.FeedItem | crates/guestlang-host/src/hostgen.rs:484-597 | an item's lines close what was open and leave the item open, complete |
| SnapshotLaws.StepHeld | crates/guestlang-host/src/hostgen.rs:503-597 | no line takes the parser outside what the format holds |
| SnapshotLaws.ParseRender | crates/guestlang-host/src/hostgen.rs:468-607 | parsing a rendered universe returns it exactly, in order and verbatim |
| SnapshotLaws.ParsedHeld | crates/guestlang-host/src/hostgen.rs:476-479 | every accepted text means a universe the format holds |
| SnapshotLaws.ParseRenderIff | lean/schema-lang/SchemaLang/Snapshot.lean:408-432 | exactly which universes survive rendering and parsing |
| SnapshotLaws.ParseNormalizes | crates/guestlang-host/src/hostgen.rs:42-50 | any accepted text re-renders to one that means the same |
| SnapshotSpelling.StepSpelled | crates/guestlang-host/src/hostgen.rs:503-597 | a line that is taken is one more line of what the state spells |
| SnapshotSpelling.TextIff | crates/guestlang-host/src/hostgen.rs:468-607 | on arbitrary text: accepted as these items iff its non-blank lines spell them and the format holds them |
| SnapshotSpelling.FeedErrorIff | crates/guestlang-host/src/hostgen.rs:484-597 | feeding fails iff some line is not taken after all before it were, and says that line's number |
| SnapshotSpelling.ErrorIff | crates/guestlang-host/src/hostgen.rs:479-607 | a text is refused iff a first line is not taken, at that line, or it ends in a function without `ret`, at the last line that is not blank |
| SnapshotSpelling.SemIff | crates/guestlang-host/src/hostgen.rs:446-466 | semantics are accepted iff both words are among the three of their place |
| SnapshotSpelling.GoldenText | crates/guestlang-host/src/hostgen.rs:915-940 | one function in full, as written and as read |
| SnapshotSpelling.GoldenKinds | crates/guestlang-host/src/hostgen.rs:503-556 | a record, a variant and a resource in full, as written and as read |
| SnapshotReader.ReadSnapshot | crates/guestlang-host/src/hostgen.rs:479-607 | the line loop computes the specified parse, error line numbers included |
| FdProtocol.InvStep | patches/getrandom-0.3.4/src/backends/use_file.rs:82-115 | every step of every thread keeps ownership, publication and wakeup invariants |
| FdProtocol.RunInv | patches/getrandom-0.3.4/src/backends/use_file.rs:44-115 | they hold throughout every run |
| FdProtocol.OneOwner | patches/getrandom-0.3.4/src/backends/use_file.rs:84-106 | the ongoing marker is set exactly while one thread, and only one, owns initialization |
| FdProtocol.FdStable | patches/getrandom-0.3.4/src/backends/use_file.rs:23-25 | a descriptor in the cell never changes |
| FdProtocol.ReturnsAgree | patches/getrandom-0.3.4/src/backends/use_file.rs:44-48 | all successful returns agree, and only one open ever succeeded |
| FdProtocol.FailedOpenRollsBack | patches/getrandom-0.3.4/src/backends/use_file.rs:101-106 | storing after a failed open leaves the cell uninitialised and unowned |
| FdProtocol.NoLostWakeup | patches/getrandom-0.3.4/src/backends/use_file.rs:152-177 | while anyone sleeps another thread is opening, storing or waking, and its own next three steps at most wake everyone |
| FdProtocol.WokenInThree | patches/getrandom-0.3.4/src/backends/use_file.rs:152-177 | under any interleaving: while a thread sleeps on nobody wakes anybody, one other thread is on its way to, always free to go on, and has taken fewer than three steps |
| FdProtocol.AloneReturns | patches/getrandom-0.3.4/src/backends/use_file.rs:82-116 | a thread that can go on returns, running alone, after a fixed number of steps, six at most, and a descriptor it returns is in the cell |
| FdProtocol.Progress | patches/getrandom-0.3.4/src/backends/use_file.rs:82-116 | in every reachable state a thread in a call is at most three steps of one other thread and six of its own away from returning, with a descriptor if opens succeed |
| FdProtocol.FirstOpen | patches/getrandom-0.3.4/src/backends/use_file.rs:82-116 | a thread that finds the cell uninitialised opens, publishes and returns its descriptor in five steps of its own |
| FdProtocol.ToldRun | patches/getrandom-0.3.4/src/backends/use_file.rs:44-116 | one run in full: a spurious failure, a failed open, a sleeper woken, and the fast path |

## Left out

- `FsBackend`: file I/O; claims about the backend are for `MemBackend`, the reference implementation.
- `SchemaSet::fingerprint`: a fixed u64 carried by the schema set; nothing is claimed about collisions, and `register`/`get` are map operations.
- Memory exhaustion: vectors are shorter than 2^64, as `usize` gives; a record no vector could hold is the error `CapacityOverflow`, where the source would abort. Total journal size is unbounded, except in LogLaws.RewindIff, where it is below 2^63, the most a byte vector holds.
- Journal.Append: sequence numbers and offsets are unbounded naturals, not u64.
- SnapshotSpelling.ErrorIff: says where a text is refused; the wording of a refused line's message is computed as in the code, but no law is stated about it.
- `Display` texts of errors, `is_empty`, `entry`, `entries` and the other plain accessors.
- Debug-build assertions: a mismatched type and value encode to nothing, as in a release build.
- Values.Zigzag: given as arithmetic (double, or complement the double), not as shift and xor on a 64-bit word.
- Overflow of `i64` in circuits: integers are unbounded.
- Certificate.CertifiedIff: leaves out circuits with an unvouched lift on a pair stream whose output keeps its shape, because a later stage sums the lost pairs away or splits them into scalars. No condition on the shape of the circuit settles those: with lifts that leave zero alone all of them are certified on zeros (HiddenLoss.ZerosIff), and in general what lifts compute decides (Certificate.MaskedBySum, Certificate.MaskedBySplit).
- `RefCell` borrow flags: the borrows in the memo never overlap, and the model does not track them.
- UTF-8 in the snapshot parser: text is a sequence of characters; all delimiters are ASCII, so byte and character positions agree and the invalid-UTF-8 errors cannot occur.
- Surface strings, kebab-casing, contract checks and the projection of a parsed universe.
- FdProtocol.RunInv: there is one shared atomic, so its modification order is the interleaving; ordering of other memory, `wait_until_rng_ready`, the `EINTR` retry and the read loop are not modelled, and the non-Linux sleep is a wait that wakes spuriously.
- The rest of the repository: runtimes and bindings, the forge, generated tables and state machines, the Lean development.
